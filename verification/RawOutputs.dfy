/** Appending command output verbatim, in a code fence that cannot break (agent_server/main.py).
    The reader is section 4.5 (Fenced code blocks) of the CommonMark 0.31.2 specification. */
module RawOutputs {
  import opened Text
  import opened Budgets

  // ---- how a fenced block is read ----

  datatype Fence = Fence(mark: char, length: nat, indent: nat)

  datatype Block = Block(info: string, content: seq<string>, rest: seq<string>)

  /** The lines of a document: line feed, carriage return, or both together end a line. */
  function Lines(s: string): (ls: seq<string>)
    ensures |ls| >= 1
    decreases |s|
  {
    if s == "" then [""]
    else if s[0] == '\r' && |s| > 1 && s[1] == '\n' then [""] + Lines(s[2..])
    else if s[0] == '\n' || s[0] == '\r' then [""] + Lines(s[1..])
    else var rest := Lines(s[1..]); [[s[0]] + rest[0]] + rest[1..]
  }

  /** How many times `c` stands at the start of `s`. */
  function Leading(s: string, c: char): (n: nat)
    ensures n <= |s|
    ensures forall i :: 0 <= i < n ==> s[i] == c
    ensures n < |s| ==> s[n] != c
  {
    if s == "" || s[0] != c then 0 else 1 + Leading(s[1..], c)
  }

  predicate OnlyBlanks(s: string) {
    forall i :: 0 <= i < |s| ==> s[i] == ' ' || s[i] == '\t'
  }

  /** An opening fence: at most three spaces, at least three equal marks; after backticks no further backtick. */
  function Opening(line: string): Option<(Fence, string)> {
    var indent := Leading(line, ' ');
    var tail := line[indent..];
    if indent > 3 || tail == "" || (tail[0] != '`' && tail[0] != '~') then None
    else
      var n := Leading(tail, tail[0]);
      if n < 3 || (tail[0] == '`' && '`' in tail[n..]) then None
      else Some((Fence(tail[0], n, indent), tail[n..]))
  }

  /** A closing fence: at most three spaces, at least as many marks as the opening one, then only blanks. */
  predicate Closes(line: string, fence: Fence) {
    var indent := Leading(line, ' ');
    var tail := line[indent..];
    var n := Leading(tail, fence.mark);
    indent <= 3 && n >= fence.length && OnlyBlanks(tail[n..])
  }

  /** A content line loses as much indentation as the opening fence had. */
  function Outdent(line: string, fence: Fence): string {
    var n := Leading(line, ' ');
    line[if n < fence.indent then n else fence.indent..]
  }

  /** Content up to the first closing fence, or to the end of the document. */
  function Content(lines: seq<string>, fence: Fence): (r: (seq<string>, seq<string>))
    ensures |r.1| <= |lines|
  {
    if lines == [] then ([], [])
    else if Closes(lines[0], fence) then ([], lines[1..])
    else
      var (content, rest) := Content(lines[1..], fence);
      ([Outdent(lines[0], fence)] + content, rest)
  }

  function ReadBlock(lines: seq<string>): (r: Option<Block>)
    ensures r.Some? ==> |r.value.rest| < |lines|
  {
    if lines == [] then None
    else
      match Opening(lines[0])
      case None => None
      case Some((fence, info)) =>
        var (content, rest) := Content(lines[1..], fence);
        Some(Block(info, content, rest))
  }

  // ---- how the block is written ----

  /** `re.findall` of the pattern one-or-more backticks: the longest run, counting `run` ticks just before `s`. */
  function LongestTicks(s: string, run: nat): (n: nat)
    ensures n >= run
  {
    if s == "" then run
    else if s[0] == '`' then LongestTicks(s[1..], run + 1)
    else var rest := LongestTicks(s[1..], 0); if rest > run then rest else run
  }

  function Ticks(n: nat): (s: string)
    ensures |s| == n && forall i :: 0 <= i < n ==> s[i] == '`'
  {
    if n == 0 then "" else "`" + Ticks(n - 1)
  }

  function FenceFor(body: string): string {
    var n := LongestTicks(body, 0) + 1;
    Ticks(if n > 3 then n else 3)
  }

  function Fenced(body: string): string {
    FenceFor(body) + "text\n" + body + "\n" + FenceFor(body)
  }

  // ---- the fence is longer than any run in the body ----

  lemma {:induction false} RunIsShort(s: string, run: nat, p: nat, n: nat)
    requires p + n <= |s| && forall i :: p <= i < p + n ==> s[i] == '`'
    ensures LongestTicks(s, run) >= n + (if p == 0 then run else 0)
    decreases |s|
  {
    if s != "" {
      if p > 0 {
        RunIsShort(s[1..], if s[0] == '`' then run + 1 else 0, p - 1, n);
      } else if n > 0 {
        RunIsShort(s[1..], run + 1, 0, n - 1);
      }
    }
  }

  lemma TicksInBody(body: string, from: nat, to: nat, indent: nat, n: nat)
    requires from <= to <= |body| && indent + n <= to - from
    requires forall i :: 0 <= i < n ==> body[from..to][indent..][i] == '`'
    ensures n <= LongestTicks(body, 0)
  {
    forall i | from + indent <= i < from + indent + n
      ensures body[i] == '`'
    {
      assert body[i] == body[from..to][indent..][i - from - indent];
    }
    RunIsShort(body, 0, from + indent, n);
  }

  /** A part of the body has no longer run than the body. */
  lemma {:induction false} PartNeverCloses(body: string, from: nat, to: nat, fence: Fence)
    requires from <= to <= |body| && fence.mark == '`' && fence.length > LongestTicks(body, 0)
    ensures !Closes(body[from..to], fence)
  {
    var line := body[from..to];
    var indent := Leading(line, ' ');
    var n := Leading(line[indent..], '`');
    TicksInBody(body, from, to, indent, n);
  }

  // ---- reading back ----

  predicate OneLine(s: string) {
    '\n' !in s && '\r' !in s
  }

  /** A line feed behind such a text would be taken for part of its last line ending. */
  predicate EndsInReturn(s: string) {
    s != "" && s[|s| - 1] == '\r'
  }

  lemma {:induction false} LinesWithoutReturns(s: string)
    requires '\r' !in s
    ensures Lines(s) == Split(s, '\n')
    decreases |s|
  {
    if s != "" {
      LinesWithoutReturns(s[1..]);
    }
  }

  lemma {:induction false} LinesWhole(a: string)
    requires OneLine(a)
    ensures Lines(a) == [a]
  {
    if a != "" {
      LinesWhole(a[1..]);
      assert [a[0]] + a[1..] == a;
    }
  }

  /** How the lines of a text begin. */
  lemma LinesStep(c: char, rest: string)
    requires c != '\r' || (rest != "" && rest[0] != '\n')
    ensures Lines([c] + rest) ==
            if c == '\n' || c == '\r' then [""] + Lines(rest) else [[c] + Lines(rest)[0]] + Lines(rest)[1..]
  {
    assert ([c] + rest)[1..] == rest;
  }

  lemma LinesBoth(rest: string)
    ensures Lines(['\r', '\n'] + rest) == [""] + Lines(rest)
  {
    assert (['\r', '\n'] + rest)[2..] == rest;
  }

  ghost predicate Seam(a: string, b: string) {
    Lines(a + ['\n'] + b) == Lines(a) + Lines(b)
  }

  lemma SeamEmpty(b: string)
    ensures Seam("", b)
  {
    LinesStep('\n', b);
    assert "" + ['\n'] + b == ['\n'] + b;
  }

  lemma SeamBoth(rest: string, b: string)
    requires Seam(rest, b)
    ensures Seam(['\r', '\n'] + rest, b)
  {
    LinesBoth(rest);
    LinesBoth(rest + ['\n'] + b);
    InFront(['\r', '\n'], rest, b);
    Associative([""], Lines(rest), Lines(b));
  }

  lemma InFront(front: string, rest: string, b: string)
    ensures front + rest + ['\n'] + b == front + (rest + ['\n'] + b)
  {
  }

  lemma SeamStep(c: char, rest: string, b: string)
    requires Seam(rest, b) && (c != '\r' || (rest != "" && rest[0] != '\n'))
    ensures Seam([c] + rest, b)
  {
    LinesStep(c, rest);
    LinesStep(c, rest + ['\n'] + b);
    InFront([c], rest, b);
    Associative([""], Lines(rest), Lines(b));
    OntoAppend(c, Lines(rest), Lines(b));
  }

  lemma OntoAppend(c: char, lines: seq<string>, more: seq<string>)
    requires lines != []
    ensures [[c] + (lines + more)[0]] + (lines + more)[1..] == ([[c] + lines[0]] + lines[1..]) + more
  {
    assert (lines + more)[1..] == lines[1..] + more;
  }

  lemma {:induction false} IsSeam(a: string, b: string)
    requires !EndsInReturn(a)
    ensures Seam(a, b)
    decreases |a|
  {
    if a == "" {
      SeamEmpty(b);
    } else if a[0] == '\r' && a[1] == '\n' {
      IsSeam(a[2..], b);
      SeamBoth(a[2..], b);
      assert a == ['\r', '\n'] + a[2..];
    } else {
      IsSeam(a[1..], b);
      SeamStep(a[0], a[1..], b);
      assert a == [a[0]] + a[1..];
    }
  }

  /** A line feed is a seam: the two sides have their own lines. */
  lemma LinesAppend(a: string, b: string)
    requires !EndsInReturn(a)
    ensures Lines(a + ['\n'] + b) == Lines(a) + Lines(b)
  {
    IsSeam(a, b);
  }

  lemma LinesFirst(a: string, b: string)
    requires OneLine(a)
    ensures Lines(a + ['\n'] + b) == [a] + Lines(b)
  {
    LinesWhole(a);
    LinesAppend(a, b);
  }

  /** Every line of a text is a stretch of it. */
  lemma {:induction false} LineIsStretch(s: string, k: nat) returns (from: nat, to: nat)
    requires k < |Lines(s)|
    ensures from <= to <= |s| && Lines(s)[k] == s[from..to]
    ensures k == 0 ==> from == 0
    decreases |s|
  {
    if s == "" {
      from, to := 0, 0;
    } else if s[0] == '\n' || s[0] == '\r' {
      var n := if s[0] == '\r' && |s| > 1 && s[1] == '\n' then 2 else 1;
      if k == 0 {
        from, to := 0, 0;
      } else {
        from, to := LineIsStretch(s[n..], k - 1);
        assert s[n..][from..to] == s[from + n..to + n];
        from, to := from + n, to + n;
      }
    } else {
      from, to := LineIsStretch(s[1..], k);
      assert s[1..][from..to] == s[from + 1..to + 1];
      if k == 0 {
        assert [s[0]] + s[1..][..to] == s[..to + 1];
        from, to := 0, to + 1;
      } else {
        from, to := from + 1, to + 1;
      }
    }
  }

  lemma LeadingTicks(n: nat, tail: string)
    requires tail == "" || tail[0] != '`'
    ensures Leading(Ticks(n) + tail, '`') == n
    ensures n > 0 ==> Leading(Ticks(n) + tail, ' ') == 0
  {
    var s := Ticks(n) + tail;
    var k := Leading(s, '`');
    assert forall j :: 0 <= j < n ==> s[j] == Ticks(n)[j] == '`';
    assert tail != "" ==> s[n] == tail[0];
    if n > 0 {
      assert s[0] == Ticks(n)[0] == '`';
    }
  }

  lemma OpeningAfterTicks(n: nat, info: string)
    requires n >= 3 && info != "" && '`' !in info
    ensures Opening(Ticks(n) + info) == Some((Fence('`', n, 0), info))
  {
    var line := Ticks(n) + info;
    LeadingTicks(n, info);
    assert line[0] == Ticks(n)[0] == '`';
    assert line[0..] == line && line[n..] == info;
  }

  lemma OpeningOfTicks(n: nat)
    requires n >= 3
    ensures Opening(Ticks(n) + "text") == Some((Fence('`', n, 0), "text"))
    ensures Closes(Ticks(n), Fence('`', n, 0))
  {
    OpeningAfterTicks(n, "text");
    LeadingTicks(n, "");
    assert Ticks(n) + "" == Ticks(n) && Ticks(n)[0..] == Ticks(n);
  }

  lemma {:induction false} ContentUpToFence(lines: seq<string>, close: string, rest: seq<string>, fence: Fence)
    requires fence.indent == 0 && Closes(close, fence)
    requires forall i :: 0 <= i < |lines| ==> !Closes(lines[i], fence)
    ensures Content(lines + [close] + rest, fence) == (lines, rest)
  {
    var all := lines + [close] + rest;
    if lines == [] {
      assert all[0] == close && all[1..] == rest;
    } else {
      assert all[1..] == lines[1..] + [close] + rest;
      ContentUpToFence(lines[1..], close, rest, fence);
      assert lines[0][0..] == lines[0];
      assert [lines[0]] + lines[1..] == lines;
    }
  }

  /** A first line, the lines of a body, and what follows. */
  lemma LinesAround(head: string, body: string, tail: string)
    requires OneLine(head) && !EndsInReturn(body)
    ensures Lines(head + ['\n'] + (body + ['\n'] + tail)) == [head] + (Lines(body) + Lines(tail))
  {
    LinesFirst(head, body + ['\n'] + tail);
    LinesAppend(body, tail);
  }

  lemma AppendLines(a: seq<string>, line: string, b: seq<string>)
    ensures a + ([line] + b) == a + [line] + b
  {
  }

  lemma FencedText(body: string, after: string)
    ensures Fenced(body) == (FenceFor(body) + "text") + ['\n'] + (body + ['\n'] + FenceFor(body))
    ensures Fenced(body) + "\n" + after
         == (FenceFor(body) + "text") + ['\n'] + (body + ['\n'] + (FenceFor(body) + ['\n'] + after))
  {
  }

  lemma FencedLines(body: string, after: string)
    requires !EndsInReturn(body)
    ensures Lines(Fenced(body) + "\n" + after) ==
            [FenceFor(body) + "text"] + (Lines(body) + [FenceFor(body)] + Lines(after))
    ensures Lines(Fenced(body)) == [FenceFor(body) + "text"] + (Lines(body) + [FenceFor(body)] + [])
  {
    var fence := FenceFor(body);
    FencedText(body, after);
    LinesAround(fence + "text", body, fence + ['\n'] + after);
    LinesAround(fence + "text", body, fence);
    LinesFirst(fence, after);
    LinesWhole(fence);
    AppendLines(Lines(body), fence, Lines(after));
    AppendLines(Lines(body), fence, []);
  }

  /** Reading the lines of a printed block gives back exactly the lines of the body. */
  lemma ReadPrinted(body: string, rest: seq<string>)
    ensures ReadBlock([FenceFor(body) + "text"] + (Lines(body) + [FenceFor(body)] + rest)) ==
            Some(Block("text", Lines(body), rest))
  {
    var n := |FenceFor(body)|;
    var fence := Fence('`', n, 0);
    OpeningOfTicks(n);
    assert FenceFor(body) == Ticks(n);
    var content := Lines(body);
    forall i | 0 <= i < |content|
      ensures !Closes(content[i], fence)
    {
      var from, to := LineIsStretch(body, i);
      PartNeverCloses(body, from, to, fence);
    }
    ContentUpToFence(content, FenceFor(body), rest, fence);
    var lines := [FenceFor(body) + "text"] + (content + [FenceFor(body)] + rest);
    assert lines[1..] == content + [FenceFor(body)] + rest;
  }

  /** For every body that does not end in a carriage return, however many backticks it holds, the printed block is read
      back as a code block with exactly the lines of that body, and the text after it is untouched. */
  lemma {:induction false} FenceNeverBreaks(body: string, after: string)
    requires !EndsInReturn(body)
    ensures ReadBlock(Lines(Fenced(body) + "\n" + after)) == Some(Block("text", Lines(body), Lines(after)))
    ensures ReadBlock(Lines(Fenced(body))) == Some(Block("text", Lines(body), []))
    ensures '\r' !in body ==> Join(Lines(body), "\n") == body
  {
    FencedLines(body, after);
    ReadPrinted(body, Lines(after));
    ReadPrinted(body, []);
    if '\r' !in body {
      LinesWithoutReturns(body);
      JoinSplit(body, '\n');
    }
  }

  // ---- the collector ----

  /** The characters at which Python's `splitlines` ends a line. */
  predicate LineEnd(c: char) {
    c in "\n\r" || 0x0b <= c as int <= 0x0c || 0x1c <= c as int <= 0x1e || c as int in {0x85, 0x2028, 0x2029}
  }

  /** Length of the first line. */
  function LineLen(s: string): (n: nat)
    ensures n <= |s|
    ensures forall i :: 0 <= i < n ==> !LineEnd(s[i])
    ensures n < |s| ==> LineEnd(s[n])
  {
    if s == "" || LineEnd(s[0]) then 0 else 1 + LineLen(s[1..])
  }

  /** `s.splitlines()` */
  function SplitLines(s: string): (ls: seq<string>)
    ensures s != "" ==> ls != []
    ensures forall l :: l in ls ==> '\r' !in l && '\n' !in l
    decreases |s|
  {
    if s == "" then []
    else
      var n := LineLen(s);
      if n == |s| then [s]
      else if s[n] == '\r' && n + 1 < |s| && s[n + 1] == '\n' then [s[..n]] + SplitLines(s[n + 2..])
      else [s[..n]] + SplitLines(s[n + 1..])
  }

  /** Where a command ran, for whom, and what is known about its output. */
  datatype Meta = Meta(ip: string, asUser: string, totalLines: Option<int>, truncated: bool)

  /** A tool result: `exitCode` is missing unless a command was executed. */
  datatype Response = Response(exitCode: Option<int>, stdout: string, command: string, meta: Meta)

  datatype Item = Item(command: string, meta: Meta, stdout: string)

  /** White space, the remark that the text was cut at the limit, and the decimal form of a number. */
  datatype Style = Style(space: char -> bool, cutNote: string, decimal: int -> string)

  /** The item recorded for a response, if its output is long enough to be shown. */
  function Observed(style: Style, minLines: int, r: Response): Option<Item> {
    var out := StripRight(style.space, r.stdout);
    if r.exitCode == None || out == "" || |SplitLines(out)| < minLines then None
    else Some(Item(r.command, r.meta, out))
  }

  /** The text put between the fences: the whole output, or its longest fitting run of first lines. */
  function BodyOf(style: Style, maxChars: int, item: Item): string {
    if 0 < maxChars < |item.stdout| then
      var lines := SplitLines(item.stdout);
      Join(lines[..Fit(LineCosts(lines), maxChars, 0)], "\n") + "\n" + style.cutNote
    else item.stdout
  }

  /** Address and account, then the number of lines, then whether the end is missing. */
  function MetaText(style: Style, meta: Meta): string {
    Join((if meta.ip != "" then [meta.ip] else []) + (if meta.asUser != "" then [meta.asUser] else []), " · ")
    + (if meta.totalLines.Some? then " · " + style.decimal(meta.totalLines.value) + "줄" else "")
    + (if meta.truncated then " (뒷부분 잘림)" else "")
  }

  function Headline(style: Style, item: Item): string {
    var meta := MetaText(style, item.meta);
    (if item.command != "" then "`" + item.command + "`" else "실행 결과")
    + if meta != "" then " — " + meta else ""
  }

  function Heading(style: Style, item: Item): string {
    "\n" + ("\n" + Headline(style, item) + "\n" + "\n")
  }

  function Printed(style: Style, maxChars: int, items: seq<Item>): string {
    if items == [] then ""
    else
      var n := |items| - 1;
      Printed(style, maxChars, items[..n]) + (Heading(style, items[n]) + Fenced(BodyOf(style, maxChars, items[n])))
  }

  const TITLE := "**실행 결과 원문**"

  function Front(rule: string, title: string): string {
    "\n" + ("\n" + (rule + "\n" + ("\n" + title)))
  }

  /** A rule of three dashes and the title, each after an empty line. */
  const FRONT := Front("---", TITLE)

  class Collector {
    const style: Style
    const minLines: int
    const maxChars: int
    var items: seq<Item>

    constructor (style: Style, minLines: int, maxChars: int)
      ensures this.style == style && this.maxChars == maxChars && items == []
      ensures this.minLines == if minLines < 2 then 2 else minLines
    {
      this.style := style;
      this.minLines := if minLines > 2 then minLines else 2;
      this.maxChars := maxChars;
      items := [];
    }

    method Observe(responses: seq<Response>)
      modifies this
      ensures items == old(items) + AllObserved(style, minLines, responses)
      ensures style.space('\r') && Trimmed(old(items)) ==> Trimmed(items)
    {
      for i := 0 to |responses|
        invariant items == old(items) + AllObserved(style, minLines, responses[..i])
      {
        ObservedNext(style, minLines, responses, i);
        var item := Observed(style, minLines, responses[i]);
        if item.Some? {
          items := items + [item.value];
        }
      }
      assert responses[..|responses|] == responses;
      if style.space('\r') {
        CollectedIsTrimmed(style, minLines, responses);
      }
    }

    method ShortBody(item: Item) returns (body: string)
      ensures body == BodyOf(style, maxChars, item)
    {
      body := item.stdout;
      if 0 < maxChars < |body| {
        var lines := SplitLines(body);
        var kept := KeepLines(lines, maxChars);
        LongestFitIsMaximal(LineCosts(lines), maxChars, |kept|, Fit(LineCosts(lines), maxChars, 0));
        assert kept == lines[..|kept|];
        body := Join(kept, "\n") + "\n" + style.cutNote;
      }
    }

    method PrintAll() returns (text: string)
      ensures text == if items == [] then "" else FRONT + Printed(style, maxChars, items)
    {
      if items == [] {
        return "";
      }
      var parts := "";
      for i := 0 to |items|
        invariant parts == Printed(style, maxChars, items[..i])
      {
        var body := ShortBody(items[i]);
        assert items[..i + 1][..i] == items[..i];
        parts := parts + (Heading(style, items[i]) + Fenced(body));
      }
      assert items[..|items|] == items;
      return FRONT + parts;
    }
  }

  function AllObserved(style: Style, minLines: int, responses: seq<Response>): seq<Item> {
    if responses == [] then []
    else
      var n := |responses| - 1;
      AllObserved(style, minLines, responses[..n])
      + (match Observed(style, minLines, responses[n]) case None => [] case Some(item) => [item])
  }

  lemma ObservedNext(style: Style, minLines: int, responses: seq<Response>, i: nat)
    requires i < |responses|
    ensures var item := Observed(style, minLines, responses[i]);
            AllObserved(style, minLines, responses[..i + 1])
            == AllObserved(style, minLines, responses[..i]) + if item.Some? then [item.value] else []
  {
    assert responses[..i + 1][..i] == responses[..i];
  }

  lemma {:induction false} JoinWithoutReturns(lines: seq<string>)
    requires forall l :: l in lines ==> '\r' !in l
    ensures '\r' !in Join(lines, "\n")
  {
    if |lines| > 1 {
      JoinWithoutReturns(lines[1..]);
    }
  }

  /** A shortened output is read back character by character, even when the output itself held carriage returns. */
  lemma ShortenedBodyIsSafe(style: Style, maxChars: int, item: Item)
    requires 0 < maxChars < |item.stdout| && '\r' !in style.cutNote
    ensures var body := BodyOf(style, maxChars, item);
            && ReadBlock(Lines(Fenced(body))) == Some(Block("text", Lines(body), []))
            && Join(Lines(body), "\n") == body
  {
    var lines := SplitLines(item.stdout);
    var kept := lines[..Fit(LineCosts(lines), maxChars, 0)];
    JoinWithoutReturns(kept);
    FenceNeverBreaks(BodyOf(style, maxChars, item), "");
  }

  predicate Trimmed(items: seq<Item>) {
    forall i :: 0 <= i < |items| ==> !EndsInReturn(items[i].stdout)
  }

  /** White space at the end is cut off an output, so no collected one ends in a carriage return. */
  lemma {:induction false} CollectedIsTrimmed(style: Style, minLines: int, responses: seq<Response>)
    requires style.space('\r')
    ensures Trimmed(AllObserved(style, minLines, responses))
  {
    if responses != [] {
      var n := |responses| - 1;
      CollectedIsTrimmed(style, minLines, responses[..n]);
      StrippedEnds(style, responses[n].stdout);
    }
  }

  lemma {:induction false} StrippedEnds(style: Style, s: string)
    requires style.space('\r')
    ensures !EndsInReturn(StripRight(style.space, s))
  {
    if s != "" && style.space(s[|s| - 1]) {
      StrippedEnds(style, s[..|s| - 1]);
    }
  }

  predicate Noted(style: Style) {
    style.cutNote != "" && !EndsInReturn(style.cutNote)
  }

  lemma BodyEnds(style: Style, maxChars: int, item: Item)
    requires !EndsInReturn(item.stdout) && Noted(style)
    ensures !EndsInReturn(BodyOf(style, maxChars, item))
  {
  }

  // ---- the whole printed text, read back ----

  /** All fenced blocks of a document, in order; other lines are passed over. */
  function Blocks(lines: seq<string>): seq<seq<string>>
    decreases |lines|
  {
    if lines == [] then []
    else
      match ReadBlock(lines)
      case None => Blocks(lines[1..])
      case Some(block) => [block.content] + Blocks(block.rest)
  }

  /** No line opens a fence. */
  ghost predicate PlainLines(lines: seq<string>) {
    forall i :: 0 <= i < |lines| ==> Opening(lines[i]) == None
  }

  lemma {:induction false} PlainPassed(lines: seq<string>, more: seq<string>)
    requires PlainLines(lines)
    ensures Blocks(lines + more) == Blocks(more)
  {
    if lines == [] {
      assert lines + more == more;
    } else {
      assert (lines + more)[0] == lines[0] && (lines + more)[1..] == lines[1..] + more;
      PlainPassed(lines[1..], more);
    }
  }

  lemma FencedRead(body: string, more: seq<string>)
    ensures Blocks([FenceFor(body) + "text"] + (Lines(body) + [FenceFor(body)] + more))
         == [Lines(body)] + Blocks(more)
  {
    ReadPrinted(body, more);
  }

  /** The lines of the heading between the empty lines around it. */
  function HeadLines(style: Style, item: Item): seq<string> {
    [""] + (Lines(Headline(style, item)) + [""])
  }

  function FencedLinesOf(body: string): seq<string> {
    [FenceFor(body) + "text"] + (Lines(body) + [FenceFor(body)] + [])
  }

  lemma ItemText(before: string, headline: string, fenced: string)
    ensures before + ("\n" + ("\n" + headline + "\n" + "\n") + fenced)
         == before + ['\n'] + ("" + ['\n'] + (headline + ['\n'] + ("" + ['\n'] + fenced)))
  {
  }

  lemma ItemLines(before: string, style: Style, item: Item, body: string)
    requires !EndsInReturn(before) && !EndsInReturn(Headline(style, item)) && !EndsInReturn(body)
    ensures Lines(before + (Heading(style, item) + Fenced(body)))
         == Lines(before) + (HeadLines(style, item) + FencedLinesOf(body))
  {
    var headline, fenced := Headline(style, item), Fenced(body);
    ItemText(before, headline, fenced);
    LinesAppend(before, "" + ['\n'] + (headline + ['\n'] + ("" + ['\n'] + fenced)));
    LinesFirst("", headline + ['\n'] + ("" + ['\n'] + fenced));
    LinesAppend(headline, "" + ['\n'] + fenced);
    LinesFirst("", fenced);
    FencedLines(body, "");
    HeadThenFence(Lines(headline), FencedLinesOf(body));
  }

  lemma HeadThenFence(lines: seq<string>, fenced: seq<string>)
    ensures [""] + (lines + ([""] + fenced)) == [""] + (lines + [""]) + fenced
  {
  }

  function ItemLinesOf(style: Style, maxChars: int, item: Item): seq<string> {
    HeadLines(style, item) + FencedLinesOf(BodyOf(style, maxChars, item))
  }

  /** No heading and no body ends in a carriage return. */
  predicate Closed(style: Style, maxChars: int, items: seq<Item>) {
    forall i :: 0 <= i < |items| ==>
      !EndsInReturn(Headline(style, items[i])) && !EndsInReturn(BodyOf(style, maxChars, items[i]))
  }

  lemma FencedEnds(body: string)
    ensures Fenced(body) != "" && Fenced(body)[|Fenced(body)| - 1] == '`'
  {
    var fence := FenceFor(body);
    assert Fenced(body) == (fence + "text\n" + body + "\n") + fence;
    assert Fenced(body)[|Fenced(body)| - 1] == fence[|fence| - 1];
  }

  lemma PrintedEnds(front: string, style: Style, maxChars: int, items: seq<Item>)
    requires !EndsInReturn(front)
    ensures !EndsInReturn(front + Printed(style, maxChars, items))
  {
    if items != [] {
      var n := |items| - 1;
      var fenced := Fenced(BodyOf(style, maxChars, items[n]));
      FencedEnds(BodyOf(style, maxChars, items[n]));
      var before := front + (Printed(style, maxChars, items[..n]) + Heading(style, items[n]));
      assert front + Printed(style, maxChars, items) == before + fenced;
    } else {
      assert front + "" == front;
    }
  }

  /** The lines of the printed text are those of all items but the last, then those of the last. */
  lemma LastItem(front: string, style: Style, maxChars: int, items: seq<Item>, more: seq<string>)
    requires items != [] && Closed(style, maxChars, items) && !EndsInReturn(front)
    ensures Lines(front + Printed(style, maxChars, items)) + more
         == Lines(front + Printed(style, maxChars, items[..|items| - 1])) +
            (ItemLinesOf(style, maxChars, items[|items| - 1]) + more)
  {
    var n := |items| - 1;
    var item, before := items[n], Printed(style, maxChars, items[..n]);
    var body := BodyOf(style, maxChars, item);
    PrintedEnds(front, style, maxChars, items[..n]);
    ItemLines(front + before, style, item, body);
    Associative(front, before, Heading(style, item) + Fenced(body));
    Associative(Lines(front + before), HeadLines(style, item) + FencedLinesOf(body), more);
  }

  function Bodies(style: Style, maxChars: int, items: seq<Item>): (bodies: seq<seq<string>>)
    ensures |bodies| == |items|
  {
    if items == [] then []
    else
      var n := |items| - 1;
      Bodies(style, maxChars, items[..n]) + [Lines(BodyOf(style, maxChars, items[n]))]
  }

  /** The headings open no fence of their own. */
  ghost predicate PlainHeadings(style: Style, items: seq<Item>) {
    forall i :: 0 <= i < |items| ==> PlainLines(Lines(Headline(style, items[i])))
  }

  lemma HeadIsPlain(style: Style, item: Item)
    requires PlainLines(Lines(Headline(style, item)))
    ensures PlainLines(HeadLines(style, item))
  {
    NoFence("");
  }

  lemma ItemRead(style: Style, item: Item, body: string, more: seq<string>)
    requires PlainLines(Lines(Headline(style, item)))
    ensures Blocks((HeadLines(style, item) + FencedLinesOf(body)) + more) == [Lines(body)] + Blocks(more)
  {
    HeadIsPlain(style, item);
    Regroup(HeadLines(style, item), FenceFor(body), Lines(body), more);
    PlainPassed(HeadLines(style, item), [FenceFor(body) + "text"] + (Lines(body) + [FenceFor(body)] + more));
    FencedRead(body, more);
  }

  lemma Regroup(head: seq<string>, fence: string, lines: seq<string>, more: seq<string>)
    ensures (head + ([fence + "text"] + (lines + [fence] + []))) + more
         == head + ([fence + "text"] + (lines + [fence] + more))
  {
  }

  lemma {:induction false} PrintedRead(front: string, style: Style, maxChars: int, items: seq<Item>, more: seq<string>)
    requires PlainLines(Lines(front)) && PlainHeadings(style, items)
    requires Closed(style, maxChars, items) && !EndsInReturn(front)
    ensures Blocks(Lines(front + Printed(style, maxChars, items)) + more)
         == Bodies(style, maxChars, items) + Blocks(more)
    decreases items
  {
    if items == [] {
      assert front + "" == front;
      PlainPassed(Lines(front), more);
    } else {
      var n := |items| - 1;
      var item := items[n];
      var body := BodyOf(style, maxChars, item);
      var here := ItemLinesOf(style, maxChars, item);
      LastItem(front, style, maxChars, items, more);
      PrintedRead(front, style, maxChars, items[..n], here + more);
      ItemRead(style, item, body, more);
      Associative(Bodies(style, maxChars, items[..n]), [Lines(body)], Blocks(more));
    }
  }

  lemma FrontLines(rule: string, title: string)
    requires OneLine(rule) && OneLine(title)
    ensures Lines(Front(rule, title)) == [""] + ([""] + ([rule] + ([""] + [title])))
  {
    LinesFirst("", "\n" + (rule + "\n" + ("\n" + title)));
    LinesFirst("", rule + "\n" + ("\n" + title));
    LinesFirst(rule, "\n" + title);
    LinesFirst("", title);
    LinesWhole(title);
  }

  lemma FrontEnds(rule: string, title: string)
    requires title != "" && !EndsInReturn(title)
    ensures !EndsInReturn(Front(rule, title))
  {
    assert Front(rule, title) == ("\n" + ("\n" + (rule + "\n" + "\n"))) + title;
  }

  lemma NoFence(line: string)
    requires line == "" || (line[0] != ' ' && line[0] != '`' && line[0] != '~')
    ensures Opening(line) == None
  {
    assert line != "" ==> Leading(line, ' ') == 0 && line[0..] == line;
  }

  lemma FrontIsPlain()
    ensures PlainLines(Lines(FRONT)) && !EndsInReturn(FRONT)
  {
    assert TITLE[0] == '*' && TITLE[|TITLE| - 1] == '*';
    FrontEnds("---", TITLE);
    FrontLines("---", TITLE);
    NoFence("");
    NoFence("---");
    NoFence(TITLE);
  }

  /** All outputs together: whatever the bodies hold, the printed text reads back as exactly the bodies, each one as a
      block of its own and in order, if no heading opens a fence. */
  lemma PrintedReadsBack(style: Style, maxChars: int, items: seq<Item>)
    requires PlainHeadings(style, items) && Closed(style, maxChars, items)
    ensures Blocks(Lines(FRONT + Printed(style, maxChars, items))) == Bodies(style, maxChars, items)
  {
    FrontIsPlain();
    ReadsBackAfter(FRONT, style, maxChars, items);
  }

  lemma ReadsBackAfter(front: string, style: Style, maxChars: int, items: seq<Item>)
    requires PlainLines(Lines(front)) && PlainHeadings(style, items)
    requires Closed(style, maxChars, items) && !EndsInReturn(front)
    ensures Blocks(Lines(front + Printed(style, maxChars, items))) == Bodies(style, maxChars, items)
  {
    var lines := Lines(front + Printed(style, maxChars, items));
    PrintedRead(front, style, maxChars, items, []);
    assert lines + [] == lines;
    assert Bodies(style, maxChars, items) + [] == Bodies(style, maxChars, items);
  }

  // ---- the headings that open a fence of their own ----

  /** A command of backticks only, with no backtick in what is said about its output. */
  predicate Stray(style: Style, item: Item) {
    && item.command != "" && (forall i :: 0 <= i < |item.command| ==> item.command[i] == '`')
    && '`' !in MetaText(style, item.meta)
  }

  /** The heading of a command, with a remark about its output. */
  function Quoted(command: string, remark: string): string {
    "`" + command + "`" + remark
  }

  lemma QuotedPlainIff(command: string, remark: string)
    requires command != "" && (remark == "" || remark[0] != '`')
    ensures Opening(Quoted(command, remark)) == None
       <==> '`' in remark || exists j :: 0 <= j < |command| && command[j] != '`'
  {
    var line := Quoted(command, remark);
    var k := 1 + |command|;
    var n := Leading(line, '`');
    assert line[0] == '`' == line[k] && line[k + 1..] == remark && line[0..] == line;
    assert forall i :: 0 <= i < |command| ==> line[1 + i] == command[i];
    if j :| 0 <= j < |command| && command[j] != '`' {
      assert n <= 1 + j && line[n..][k - n] == '`';
    } else {
      assert remark != "" ==> line[k + 1] == remark[0];
      assert forall i :: 0 < i < k ==> line[i] == command[i - 1];
      assert n == k + 1;
    }
  }

  /** A heading of one line opens a fence exactly when it is stray. */
  lemma HeadlinePlainIff(style: Style, item: Item)
    requires OneLine(Headline(style, item))
    ensures PlainLines(Lines(Headline(style, item))) <==> !Stray(style, item)
  {
    var line := Headline(style, item);
    var meta := MetaText(style, item.meta);
    LinesWhole(line);
    assert PlainLines([line]) <==> Opening([line][0]) == None;
    if item.command != "" {
      var remark := if meta != "" then " — " + meta else "";
      assert '`' in remark <==> '`' in meta by {
        assert meta != "" ==> forall i :: 0 <= i < |meta| ==> remark[3 + i] == meta[i];
      }
      QuotedPlainIff(item.command, remark);
      assert line == Quoted(item.command, remark);
    } else {
      assert line[0] == '실';
      NoFence(line);
    }
  }

  lemma OpenerStays(n: nat, fence: Fence)
    requires fence.length >= 3 && (fence.mark == '`' || fence.mark == '~') && n >= 3
    ensures !Closes("", fence) && !Closes(Ticks(n) + "text", fence)
    ensures Outdent(Ticks(n) + "text", fence) == Ticks(n) + "text"
  {
    var line := Ticks(n) + "text";
    LeadingTicks(n, "text");
    assert line[0] == Ticks(n)[0] == '`' && line[0..] == line && line[n..] == "text" && line[n] == 't';
  }

  /** Block `k` has the opening fence of an output for its second line. */
  predicate Spoiled(read: seq<seq<string>>, k: nat, opener: string) {
    k < |read| && |read[k]| > 1 && read[k][1] == opener
  }

  lemma SpoiledAfter(a: seq<seq<string>>, b: seq<seq<string>>, opener: string)
    requires Spoiled(b, 0, opener)
    ensures Spoiled(a + b, |a|, opener)
  {
  }

  lemma ContentKeeps(line: string, rest: seq<string>, fence: Fence)
    requires !Closes(line, fence)
    ensures Content([line] + rest, fence).0 == [Outdent(line, fence)] + Content(rest, fence).0
  {
    assert ([line] + rest)[1..] == rest;
  }

  lemma ContentHasOpener(opener: string, tail: seq<string>, fence: Fence)
    requires !Closes("", fence) && !Closes(opener, fence) && Outdent(opener, fence) == opener
    ensures var content := Content([""] + ([opener] + tail), fence).0; |content| > 1 && content[1] == opener
  {
    ContentKeeps("", [opener] + tail, fence);
    ContentKeeps(opener, tail, fence);
  }

  lemma FirstBlock(line: string, rest: seq<string>)
    requires Opening(line) != None
    ensures var read := Blocks([line] + rest); read != [] && read[0] == Content(rest, Opening(line).value.0).0
  {
    assert ([line] + rest)[1..] == rest;
  }

  lemma SwallowsOpener(line: string, opener: string, tail: seq<string>)
    requires Opening(line) != None
    requires var fence := Opening(line).value.0;
             !Closes("", fence) && !Closes(opener, fence) && Outdent(opener, fence) == opener
    ensures Spoiled(Blocks([line] + ([""] + ([opener] + tail))), 0, opener)
  {
    ContentHasOpener(opener, tail, Opening(line).value.0);
    FirstBlock(line, [""] + ([opener] + tail));
  }

  predicate OpensFence(style: Style, item: Item) {
    OneLine(Headline(style, item)) && Opening(Headline(style, item)) != None
  }

  /** A block that a heading opens runs on into the fence of the output. */
  lemma ItemBroken(style: Style, item: Item, body: string, more: seq<string>)
    requires OpensFence(style, item)
    ensures Spoiled(Blocks((HeadLines(style, item) + FencedLinesOf(body)) + more), 0, FenceFor(body) + "text")
  {
    var line, opener := Headline(style, item), FenceFor(body) + "text";
    LinesWhole(line);
    NoFence("");
    var tail := Lines(body) + [FenceFor(body)] + more;
    Regroup(HeadLines(style, item), FenceFor(body), Lines(body), more);
    BrokenLines(line, opener, tail);
    OpenerStays(|FenceFor(body)|, Opening(line).value.0);
    SwallowsOpener(line, opener, tail);
    PlainPassed([""], [line] + ([""] + ([opener] + tail)));
  }

  lemma BrokenLines(line: string, opener: string, tail: seq<string>)
    ensures [""] + ([line] + [""]) + ([opener] + tail) == [""] + ([line] + ([""] + ([opener] + tail)))
  {
  }

  lemma BodyHasNoOpener(body: string, k: nat)
    requires k < |Lines(body)|
    ensures Lines(body)[k] != FenceFor(body) + "text"
  {
    var from, to := LineIsStretch(body, k);
    var n := |FenceFor(body)|;
    if body[from..to] == FenceFor(body) + "text" {
      assert forall i :: 0 <= i < n ==> body[from..to][0..][i] == FenceFor(body)[i];
      TicksInBody(body, from, to, 0, n);
    }
  }

  lemma {:induction false} BodyAt(style: Style, maxChars: int, items: seq<Item>, k: nat)
    requires k < |items|
    ensures Bodies(style, maxChars, items)[k] == Lines(BodyOf(style, maxChars, items[k]))
  {
    var n := |items| - 1;
    if k < n {
      BodyAt(style, maxChars, items[..n], k);
      PrefixOfPrefix(items, k, n);
    }
  }

  lemma LastBroken(front: string, style: Style, maxChars: int, items: seq<Item>, n: nat, more: seq<string>)
    requires n + 1 == |items| && PlainLines(Lines(front)) && PlainHeadings(style, items[..n])
    requires OpensFence(style, items[n]) && Closed(style, maxChars, items) && !EndsInReturn(front)
    ensures Spoiled(Blocks(Lines(front + Printed(style, maxChars, items)) + more), n,
                    FenceFor(BodyOf(style, maxChars, items[n])) + "text")
  {
    var body := BodyOf(style, maxChars, items[n]);
    var here := ItemLinesOf(style, maxChars, items[n]) + more;
    LastItem(front, style, maxChars, items, more);
    PrintedRead(front, style, maxChars, items[..n], here);
    ItemBroken(style, items[n], body, more);
    SpoiledAfter(Bodies(style, maxChars, items[..n]), Blocks(here), FenceFor(body) + "text");
  }

  lemma PrefixOfPrefix<T>(s: seq<T>, k: nat, n: nat)
    requires k < n <= |s|
    ensures s[..n][..k] == s[..k] && s[..n][k] == s[k]
  {
  }

  /** The lines of the first `m` items come first, whatever follows. */
  lemma {:induction false} FirstItems(front: string, style: Style, maxChars: int, items: seq<Item>, m: nat,
        more: seq<string>) returns (after: seq<string>)
    requires m <= |items| && Closed(style, maxChars, items) && !EndsInReturn(front)
    ensures Lines(front + Printed(style, maxChars, items)) + more
         == Lines(front + Printed(style, maxChars, items[..m])) + after
    decreases items
  {
    var n := |items| - 1;
    if m == |items| {
      assert items[..m] == items;
      after := more;
    } else {
      LastItem(front, style, maxChars, items, more);
      assert items[..n][..m] == items[..m];
      after := FirstItems(front, style, maxChars, items[..n], m, ItemLinesOf(style, maxChars, items[n]) + more);
    }
  }

  /** The first heading that opens a fence spoils the block of its own output. */
  lemma PrintedBroken(front: string, style: Style, maxChars: int, items: seq<Item>, k: nat, more: seq<string>)
    requires k < |items| && PlainLines(Lines(front)) && PlainHeadings(style, items[..k])
    requires OpensFence(style, items[k]) && Closed(style, maxChars, items) && !EndsInReturn(front)
    ensures Spoiled(Blocks(Lines(front + Printed(style, maxChars, items)) + more), k,
                    FenceFor(BodyOf(style, maxChars, items[k])) + "text")
  {
    var after := FirstItems(front, style, maxChars, items, k + 1, more);
    PrefixOfPrefix(items, k, k + 1);
    LastBroken(front, style, maxChars, items[..k + 1], k, after);
  }

  lemma {:induction false} FirstStray(style: Style, items: seq<Item>, i: nat) returns (k: nat)
    requires i < |items| && Stray(style, items[i])
    ensures k < |items| && Stray(style, items[k]) && forall j :: 0 <= j < k ==> !Stray(style, items[j])
  {
    k := 0;
    while !Stray(style, items[k])
      invariant k <= i && forall j :: 0 <= j < k ==> !Stray(style, items[j])
      decreases i - k
    {
      k := k + 1;
    }
  }

  /** With headings of one line the printed text reads back as exactly the bodies if and only if no heading is stray. */
  lemma {:induction false} ReadsBackIff(style: Style, maxChars: int, items: seq<Item>)
    requires Trimmed(items) && Noted(style) && forall i :: 0 <= i < |items| ==> OneLine(Headline(style, items[i]))
    ensures Blocks(Lines(FRONT + Printed(style, maxChars, items))) == Bodies(style, maxChars, items)
       <==> forall i :: 0 <= i < |items| ==> !Stray(style, items[i])
  {
    forall i | 0 <= i < |items|
      ensures PlainLines(Lines(Headline(style, items[i]))) <==> !Stray(style, items[i])
    {
      HeadlinePlainIff(style, items[i]);
    }
    OneLineIsClosed(style, maxChars, items);
    if i :| 0 <= i < |items| && Stray(style, items[i]) {
      FrontIsPlain();
      var k := FirstStray(style, items, i);
      StraySpoils(FRONT, style, maxChars, items, k);
    } else {
      PrintedReadsBack(style, maxChars, items);
    }
  }

  lemma OneLineIsClosed(style: Style, maxChars: int, items: seq<Item>)
    requires Trimmed(items) && Noted(style) && forall i :: 0 <= i < |items| ==> OneLine(Headline(style, items[i]))
    ensures Closed(style, maxChars, items)
  {
    forall i | 0 <= i < |items|
      ensures !EndsInReturn(BodyOf(style, maxChars, items[i]))
    {
      BodyEnds(style, maxChars, items[i]);
    }
  }

  lemma StraySpoils(front: string, style: Style, maxChars: int, items: seq<Item>, k: nat)
    requires !EndsInReturn(front) && Closed(style, maxChars, items) && PlainLines(Lines(front))
    requires k < |items| && PlainHeadings(style, items[..k])
    requires OneLine(Headline(style, items[k])) && !PlainLines(Lines(Headline(style, items[k])))
    ensures Blocks(Lines(front + Printed(style, maxChars, items))) != Bodies(style, maxChars, items)
  {
    var lines := Lines(front + Printed(style, maxChars, items));
    LinesWhole(Headline(style, items[k]));
    PrintedBroken(front, style, maxChars, items, k, []);
    assert lines + [] == lines;
    BodyAt(style, maxChars, items, k);
    var body := BodyOf(style, maxChars, items[k]);
    if |Lines(body)| > 1 {
      BodyHasNoOpener(body, 1);
    }
  }

  /** A command of one backtick, of which nothing is said: its heading is a fence of three. */
  function Backtick(): Item {
    Item("`", Meta("", "", None, false), "a")
  }

  lemma BacktickIsStray(style: Style)
    ensures Stray(style, Backtick()) && OneLine(Headline(style, Backtick()))
  {
    assert MetaText(style, Backtick().meta) == "";
  }

  /** Such an output is not read back, whatever the limit. */
  lemma BacktickIsNotReadBack(style: Style, maxChars: int)
    requires Noted(style)
    ensures Blocks(Lines(FRONT + Printed(style, maxChars, [Backtick()]))) != Bodies(style, maxChars, [Backtick()])
  {
    BacktickIsStray(style);
    ReadsBackIff(style, maxChars, [Backtick()]);
    assert Stray(style, [Backtick()][0]);
  }
}
