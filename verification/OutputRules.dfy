/** What is collected of the tool results and how it is printed, said without the functions that do it
    (agent_server/main.py:432-499). */
module OutputRules {
  import opened Budgets
  import opened RawOutputs
  import opened Selections
  import opened Text
  import opened TextLaws

  // ---- lines ----

  /** The characters that end a line in Python. */
  predicate Ends(c: char) {
    || c == '\n' || c == '\r' || c as int == 0x0b || c as int == 0x0c || c as int == 0x1c || c as int == 0x1d
    || c as int == 0x1e || c as int == 0x85 || c as int == 0x2028 || c as int == 0x2029
  }

  predicate NoEnd(line: string) {
    forall i :: 0 <= i < |line| ==> !Ends(line[i])
  }

  /** A line, what ends it, and the rest; CR LF is one end, and the last line may have none if it is not empty. */
  predicate FirstLine(s: string, line: string, end: string, rest: string) {
    && s == line + (end + rest) && NoEnd(line)
    && (end == "\r\n" || (|end| == 1 && Ends(end[0]) && !(end == "\r" && rest != "" && rest[0] == '\n'))
        || (end == "" && rest == "" && line != ""))
  }

  ghost predicate LinesAre(s: string, lines: seq<string>)
    decreases |lines|
  {
    if lines == [] then s == ""
    else exists end, rest :: FirstLine(s, lines[0], end, rest) && LinesAre(rest, lines[1..])
  }

  lemma EndsIff(c: char)
    ensures Ends(c) <==> LineEnd(c)
  {
  }

  /** The line in front and the rest, as they are split. */
  lemma SplitFirstLine(s: string) returns (line: string, end: string, rest: string)
    requires s != ""
    ensures FirstLine(s, line, end, rest) && SplitLines(s) == [line] + SplitLines(rest) && |rest| < |s|
  {
    var n := LineLen(s);
    line := s[..n];
    forall i | 0 <= i < |s|
      ensures Ends(s[i]) <==> LineEnd(s[i])
    {
      EndsIff(s[i]);
    }
    if n == |s| {
      end, rest := "", "";
      assert s == line + (end + rest);
      assert SplitLines(rest) == [] && line == s;
      assert SplitLines(s) == [s];
      assert [line] + [] == [line];
    } else if s[n] == '\r' && n + 1 < |s| && s[n + 1] == '\n' {
      end, rest := "\r\n", s[n + 2..];
      assert s == line + (end + rest);
    } else {
      end, rest := [s[n]], s[n + 1..];
      assert s == line + (end + rest);
    }
  }

  lemma OneFirstLine(s: string, line: string, end: string, rest: string, line2: string, end2: string, rest2: string)
    requires FirstLine(s, line, end, rest) && FirstLine(s, line2, end2, rest2)
    ensures line == line2 && rest == rest2
  {
    NotLongerLine(s, line, end, rest, line2, end2, rest2);
    NotLongerLine(s, line2, end2, rest2, line, end, rest);
    assert line == s[..|line|] == line2;
    assert s[|line|..] == end + rest == end2 + rest2;
    SameEnd(end, rest, end2, rest2);
  }

  lemma NotLongerLine(s: string, line: string, end: string, rest: string, line2: string, end2: string, rest2: string)
    requires FirstLine(s, line, end, rest) && FirstLine(s, line2, end2, rest2)
    ensures |line2| <= |line|
  {
    if end != "" {
      assert s[|line|] == end[0];
    } else {
      assert s == line;
    }
    if |line| < |line2| {
      InLine(s, line, line2, end2 + rest2);
    }
  }

  lemma InLine(s: string, line: string, longer: string, tail: string)
    requires s == longer + tail && NoEnd(longer) && |line| < |longer|
    ensures !Ends(s[|line|])
  {
    assert s[|line|] == longer[|line|];
  }

  lemma SameEnd(end: string, rest: string, end2: string, rest2: string)
    requires end + rest == end2 + rest2
    requires end == "\r\n" || (|end| == 1 && !(end == "\r" && rest != "" && rest[0] == '\n'))
             || (end == "" && rest == "")
    requires end2 == "\r\n" || (|end2| == 1 && !(end2 == "\r" && rest2 != "" && rest2[0] == '\n'))
             || (end2 == "" && rest2 == "")
    ensures rest == rest2
  {
    var tail := end + rest;
    assert |end| > 0 ==> tail[0] == end[0] && (|end| == 1 && rest != "" ==> tail[1] == rest[0]);
    assert |end2| > 0 ==> tail[0] == end2[0] && (|end2| == 1 && rest2 != "" ==> tail[1] == rest2[0]);
    assert |end| == 2 ==> tail[1] == end[1];
    assert |end2| == 2 ==> tail[1] == end2[1];
    assert |end| == |end2|;
    assert rest == tail[|end|..] == rest2;
  }

  lemma {:induction false} SplitLinesIff(s: string, lines: seq<string>)
    ensures LinesAre(s, lines) <==> lines == SplitLines(s)
    decreases |s|
  {
    if s != "" {
      var line, end, rest := SplitFirstLine(s);
      if lines != [] {
        if LinesAre(s, lines) {
          var end2, rest2 :| FirstLine(s, lines[0], end2, rest2) && LinesAre(rest2, lines[1..]);
          OneFirstLine(s, line, end, rest, lines[0], end2, rest2);
        }
        SplitLinesIff(rest, lines[1..]);
        assert lines == [lines[0]] + lines[1..];
      }
    } else {
      NoLines(lines);
    }
  }

  lemma NoLines(lines: seq<string>)
    ensures LinesAre("", lines) <==> lines == []
  {
    forall line, end, rest
      ensures !FirstLine("", line, end, rest)
    {
      if line + (end + rest) == "" {
        assert |line| + |end| + |rest| == 0;
      }
    }
  }

  // ---- the fence ----

  predicate TicksAt(body: string, p: nat, n: nat) {
    p + n <= |body| && forall i :: p <= i < p + n ==> body[i] == '`'
  }

  /** Backticks only, at least three, more than stand anywhere in the body, and no more than that takes. */
  ghost predicate ShortestFence(body: string, fence: string) {
    && |fence| >= 3 && (forall i :: 0 <= i < |fence| ==> fence[i] == '`')
    && (forall p: nat, n: nat :: TicksAt(body, p, n) ==> n < |fence|)
    && (|fence| > 3 ==> exists p: nat, n: nat :: TicksAt(body, p, n) && n + 1 == |fence|)
  }

  /** Where the longest run stands; at the start it continues the `run` ticks in front. */
  lemma {:induction false} LongestStands(s: string, run: nat) returns (p: nat, n: nat)
    ensures TicksAt(s, p, n) && LongestTicks(s, run) == n + if p == 0 then run else 0
  {
    if s == "" {
      p, n := 0, 0;
    } else if s[0] == '`' {
      p, n := LongestStands(s[1..], run + 1);
      if p == 0 {
        n := n + 1;
      } else {
        p := p + 1;
      }
    } else {
      p, n := LongestStands(s[1..], 0);
      if n > run {
        p := p + 1;
      } else {
        p, n := 0, 0;
      }
    }
  }

  lemma FenceIsShortest(body: string)
    ensures ShortestFence(body, FenceFor(body))
  {
    var p, n := LongestStands(body, 0);
    forall q: nat, k: nat | TicksAt(body, q, k)
      ensures k < |FenceFor(body)|
    {
      RunIsShort(body, 0, q, k);
    }
  }

  // ---- what is collected ----

  /** A command was executed and its output, without the white space at its end, has enough lines. */
  ghost predicate LongEnough(style: Style, minLines: int, r: Response) {
    r.exitCode.Some? && exists out, lines :: HasLines(style, r.stdout, out, lines) && |lines| >= minLines
  }

  ghost predicate HasLines(style: Style, stdout: string, out: string, lines: seq<string>) {
    RightTrims(style.space, stdout, out) && out != "" && LinesAre(out, lines)
  }

  function AsItem(style: Style, r: Response): (item: Item)
    ensures item.command == r.command && item.meta == r.meta && RightTrims(style.space, r.stdout, item.stdout)
  {
    StripRightIff(style.space, r.stdout, StripRight(style.space, r.stdout));
    Item(r.command, r.meta, StripRight(style.space, r.stdout))
  }

  lemma LongEnoughIff(style: Style, minLines: int, r: Response)
    ensures LongEnough(style, minLines, r) <==> Observed(style, minLines, r).Some?
    ensures LongEnough(style, minLines, r) ==> Observed(style, minLines, r) == Some(AsItem(style, r))
  {
    var out := StripRight(style.space, r.stdout);
    StripRightIff(style.space, r.stdout, out);
    SplitLinesIff(out, SplitLines(out));
    if Observed(style, minLines, r).Some? {
      assert HasLines(style, r.stdout, out, SplitLines(out));
    }
    if LongEnough(style, minLines, r) {
      var out2, lines :| HasLines(style, r.stdout, out2, lines) && |lines| >= minLines;
      StripRightIff(style.space, r.stdout, out2);
      SplitLinesIff(out, lines);
    }
  }

  /** What is recorded for a result. */
  ghost predicate Records(style: Style, minLines: int, keep: Response -> bool, make: Response -> Item, r: Response) {
    Observed(style, minLines, r) == if keep(r) then Some(make(r)) else None
  }

  lemma OneMoreObserved(style: Style, minLines: int, keep: Response -> bool, make: Response -> Item,
                        responses: seq<Response>)
    requires responses != [] && Records(style, minLines, keep, make, responses[|responses| - 1])
    ensures var n := |responses| - 1;
            var before := AllObserved(style, minLines, responses[..n]);
            AllObserved(style, minLines, responses)
            == if keep(responses[n]) then before + [make(responses[n])] else before
  {
  }

  lemma {:induction false} CollectsKept(style: Style, minLines: int, keep: Response -> bool, make: Response -> Item,
                                        responses: seq<Response>)
    requires forall i :: 0 <= i < |responses| ==> Records(style, minLines, keep, make, responses[i])
    ensures Selects(responses, keep, make, AllObserved(style, minLines, responses))
  {
    if responses == [] {
      SelectsNothing(keep, make);
    } else {
      var n := |responses| - 1;
      CollectsKept(style, minLines, keep, make, responses[..n]);
      OneMoreObserved(style, minLines, keep, make, responses);
      SelectsLast(responses, keep, make, AllObserved(style, minLines, responses[..n]),
                  AllObserved(style, minLines, responses));
    }
  }

  /** Exactly these results are collected, in their order. */
  lemma CollectsLongEnough(style: Style, minLines: int, responses: seq<Response>)
    ensures Selects(responses, (r: Response) => LongEnough(style, minLines, r), (r: Response) => AsItem(style, r),
                    AllObserved(style, minLines, responses))
  {
    var keep, make := (r: Response) => LongEnough(style, minLines, r), (r: Response) => AsItem(style, r);
    forall i | 0 <= i < |responses|
      ensures Records(style, minLines, keep, make, responses[i])
    {
      LongEnoughIff(style, minLines, responses[i]);
    }
    CollectsKept(style, minLines, keep, make, responses);
  }

  // ---- what is printed ----

  /** The whole output, or as many first lines as fit and the remark. */
  ghost predicate IsBody(style: Style, maxChars: int, item: Item, body: string) {
    if maxChars <= 0 || |item.stdout| <= maxChars then body == item.stdout
    else exists lines, k: nat :: LinesAre(item.stdout, lines) && FirstLines(style, maxChars, lines, k, body)
  }

  predicate FirstLines(style: Style, maxChars: int, lines: seq<string>, k: nat, body: string) {
    LinesFit(lines, maxChars, k) && body == Join(lines[..k], "\n") + "\n" + style.cutNote
  }

  lemma BodyIs(style: Style, maxChars: int, item: Item)
    ensures IsBody(style, maxChars, item, BodyOf(style, maxChars, item))
  {
    if 0 < maxChars < |item.stdout| {
      var lines := SplitLines(item.stdout);
      var k := Fit(LineCosts(lines), maxChars, 0);
      SplitLinesIff(item.stdout, lines);
      FitIsLinesFit(lines, maxChars, k);
      assert FirstLines(style, maxChars, lines, k, BodyOf(style, maxChars, item));
    }
  }

  /** Address and account, whichever there are. */
  predicate IsPlace(meta: Meta, place: string) {
    if meta.ip != "" && meta.asUser != "" then place == meta.ip + " · " + meta.asUser
    else if meta.ip != "" then place == meta.ip
    else place == meta.asUser
  }

  ghost predicate IsMeta(style: Style, meta: Meta, text: string) {
    exists place ::
      && IsPlace(meta, place)
      && text == place + (match meta.totalLines case None => "" case Some(n) => " · " + style.decimal(n) + "줄")
                 + if meta.truncated then " (뒷부분 잘림)" else ""
  }

  lemma MetaIs(style: Style, meta: Meta)
    ensures IsMeta(style, meta, MetaText(style, meta))
  {
    var place :=
      Join((if meta.ip != "" then [meta.ip] else []) + (if meta.asUser != "" then [meta.asUser] else []), " · ");
    PlaceIs(meta, " · ", place);
    assert IsPlace(meta, place);
    if meta.totalLines.Some? {
      assert MetaText(style, meta)
          == place + (" · " + style.decimal(meta.totalLines.value) + "줄") + if meta.truncated then " (뒷부분 잘림)" else "";
    }
  }

  lemma PlaceIs(meta: Meta, sep: string, place: string)
    requires place ==
             Join((if meta.ip != "" then [meta.ip] else []) + (if meta.asUser != "" then [meta.asUser] else []), sep)
    ensures if meta.ip != "" && meta.asUser != "" then place == meta.ip + sep + meta.asUser
            else if meta.ip != "" then place == meta.ip
            else place == meta.asUser
  {
    if meta.ip != "" && meta.asUser != "" {
      var both := [meta.ip] + [meta.asUser];
      assert both[1..] == [meta.asUser];
    }
  }

  /** One output: its command and where it ran, and its text in a fence that cannot break. */
  ghost predicate PrintsItem(style: Style, maxChars: int, item: Item, text: string) {
    exists body, fence, meta ::
      && IsBody(style, maxChars, item, body) && ShortestFence(body, fence) && IsMeta(style, item.meta, meta)
      && PrintsParts(item.command, meta, fence, body, text)
  }

  ghost predicate PrintsParts(command: string, meta: string, fence: string, body: string, text: string) {
    exists head :: IsHead(command, meta, head) && text == "\n" + ("\n" + head + "\n" + "\n") + Block(fence, body)
  }

  function Block(fence: string, body: string): string {
    fence + "text\n" + body + "\n" + fence
  }

  predicate IsHead(command: string, meta: string, head: string) {
    head == (if command == "" then "실행 결과" else "`" + command + "`") + if meta == "" then "" else " — " + meta
  }

  ghost predicate PrintsAll(style: Style, maxChars: int, items: seq<Item>, parts: seq<string>) {
    && |parts| == |items|
    && forall i :: 0 <= i < |items| ==> PrintsItem(style, maxChars, items[i], parts[i])
  }

  lemma ItemIs(style: Style, maxChars: int, item: Item)
    ensures PrintsItem(style, maxChars, item, Heading(style, item) + Fenced(BodyOf(style, maxChars, item)))
  {
    var body, meta, head := BodyOf(style, maxChars, item), MetaText(style, item.meta), Headline(style, item);
    BodyIs(style, maxChars, item);
    FenceIsShortest(body);
    MetaIs(style, item.meta);
    assert IsHead(item.command, meta, head);
    assert PrintsParts(item.command, meta, FenceFor(body), body, Heading(style, item) + Fenced(body));
  }

  lemma FrontIs()
    ensures FRONT == "\n\n" + "---" + "\n\n" + TITLE
  {
    assert "\n\n" == "\n" + "\n";
  }

  /** The printed outputs, one after the other. */
  lemma {:induction false} PrintedIs(style: Style, maxChars: int, items: seq<Item>) returns (parts: seq<string>)
    ensures PrintsAll(style, maxChars, items, parts) && Printed(style, maxChars, items) == Concat(parts)
  {
    if items == [] {
      parts := [];
    } else {
      var n := |items| - 1;
      var before := PrintedIs(style, maxChars, items[..n]);
      var last := Heading(style, items[n]) + Fenced(BodyOf(style, maxChars, items[n]));
      ItemIs(style, maxChars, items[n]);
      parts := before + [last];
      ConcatSnoc(before, last);
      PrintsOneMore(style, maxChars, items, before, last);
    }
  }

  lemma PrintsOneMore(style: Style, maxChars: int, items: seq<Item>, before: seq<string>, last: string)
    requires items != [] && PrintsAll(style, maxChars, items[..|items| - 1], before)
    requires PrintsItem(style, maxChars, items[|items| - 1], last)
    ensures PrintsAll(style, maxChars, items, before + [last])
  {
    var parts := before + [last];
    forall i | 0 <= i < |before|
      ensures PrintsItem(style, maxChars, items[i], parts[i])
    {
      assert PrintsItem(style, maxChars, items[..|items| - 1][i], before[i]);
    }
  }
}
