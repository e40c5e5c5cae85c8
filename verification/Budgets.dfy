/** Keeping as much as a character budget allows, without cutting an item (agent_server/main.py, shared/ssh_exec.py). */
module Budgets {
  import opened Selections
  import opened Text

  function Sum(costs: seq<nat>): nat {
    if costs == [] then 0 else Sum(costs[..|costs| - 1]) + costs[|costs| - 1]
  }

  /** Keeping the first `k` items is right: at least one of a non-empty list, within the budget unless it is a single
      item, and one more would not fit. */
  ghost predicate LongestFit(costs: seq<nat>, budget: int, k: nat) {
    && k <= |costs|
    && (costs != [] ==> k >= 1)
    && (k > 1 ==> Sum(costs[..k]) <= budget)
    && (k < |costs| ==> Sum(costs[..k + 1]) > budget)
  }

  lemma {:induction false} SumMonotone(costs: seq<nat>, i: nat, j: nat)
    requires i <= j <= |costs|
    ensures Sum(costs[..i]) <= Sum(costs[..j])
    decreases j
  {
    if i < j {
      SumMonotone(costs, i, j - 1);
      assert costs[..j][..j - 1] == costs[..j - 1];
    }
  }

  lemma SumNext(costs: seq<nat>, i: nat)
    requires i < |costs|
    ensures Sum(costs[..i + 1]) == Sum(costs[..i]) + costs[i]
  {
    assert costs[..i + 1][..i] == costs[..i];
  }

  /** The kept stretch is the longest that fits, and there is only one such length. */
  lemma LongestFitIsMaximal(costs: seq<nat>, budget: int, k: nat, j: nat)
    requires LongestFit(costs, budget, k) && j <= |costs|
    ensures Sum(costs[..j]) <= budget ==> j <= k
    ensures LongestFit(costs, budget, j) ==> j == k
  {
    if j > k {
      SumMonotone(costs, k + 1, j);
    } else if j < k {
      SumMonotone(costs, j + 1, k);
    }
  }

  /** The length of the longest stretch that fits, counted from `k` items already kept. */
  function Fit(costs: seq<nat>, budget: int, k: nat): (n: nat)
    requires k <= |costs| && (k > 1 ==> Sum(costs[..k]) <= budget)
    ensures n >= k && LongestFit(costs, budget, n)
    decreases |costs| - k
  {
    if k < |costs| && (k == 0 || Sum(costs[..k + 1]) <= budget) then Fit(costs, budget, k + 1) else k
  }

  // ---- conversation history ----

  datatype Turn = Turn(role: string, text: string)

  function Reverse<T>(s: seq<T>): (r: seq<T>)
    ensures |r| == |s| && forall i :: 0 <= i < |s| ==> r[i] == s[|s| - 1 - i]
  {
    if s == [] then [] else Reverse(s[1..]) + [s[0]]
  }

  /** Costs of the turns, the most recent first. */
  function TurnCosts(history: seq<Turn>): (costs: seq<nat>)
    ensures |costs| == |history|
    ensures forall i :: 0 <= i < |history| ==> costs[i] == |history[|history| - 1 - i].text|
  {
    seq(|history|, i requires 0 <= i < |history| => |history[|history| - 1 - i].text|)
  }

  function TextsOf(history: seq<Turn>): (texts: seq<string>)
    ensures |texts| == |history| && forall i :: 0 <= i < |texts| ==> texts[i] == history[i].text
  {
    seq(|history|, i requires 0 <= i < |history| => history[i].text)
  }

  /** The text of the last `k` turns. */
  function LastTexts(history: seq<Turn>, k: nat): string
    requires k <= |history|
  {
    Concat(TextsOf(history[|history| - k..]))
  }

  lemma {:induction false} CostsAreTexts(history: seq<Turn>, k: nat)
    requires k <= |history|
    ensures Sum(TurnCosts(history)[..k]) == |LastTexts(history, k)|
    decreases k
  {
    var n := |history|;
    if k > 0 {
      CostsAreTexts(history, k - 1);
      SumNext(TurnCosts(history), k - 1);
      assert TextsOf(history[n - k..]) == [history[n - k].text] + TextsOf(history[n - k + 1..]);
      ConcatCons(history[n - k].text, TextsOf(history[n - k + 1..]));
    } else {
      assert history[n..] == [];
    }
  }

  /** The last `k` turns fit, at least one, and one more would not. */
  predicate LastFit(history: seq<Turn>, budget: int, k: nat) {
    && k <= |history| && (history != [] ==> k >= 1) && (k > 1 ==> |LastTexts(history, k)| <= budget)
    && (k < |history| ==> |LastTexts(history, k + 1)| > budget)
  }

  lemma FitIsLastFit(history: seq<Turn>, budget: int, k: nat)
    requires LongestFit(TurnCosts(history), budget, k)
    ensures LastFit(history, budget, k)
  {
    CostsAreTexts(history, k);
    if k < |history| {
      CostsAreTexts(history, k + 1);
    }
  }

  /** The most recent turns that fit; a budget of zero or less switches the limit off. */
  method TrimHistory(history: seq<Turn>, budget: int) returns (trimmed: seq<Turn>)
    ensures |trimmed| <= |history| && trimmed == history[|history| - |trimmed|..]
    ensures budget <= 0 ==> trimmed == history
    ensures budget > 0 ==> LongestFit(TurnCosts(history), budget, |trimmed|) && LastFit(history, budget, |trimmed|)
  {
    if budget <= 0 {
      return history;
    }
    var kept: seq<Turn>, used, n := [], 0, |history|;
    for i := 0 to n
      invariant |kept| == i && forall j :: 0 <= j < i ==> kept[j] == history[n - 1 - j]
      invariant used == Sum(TurnCosts(history)[..i])
      invariant i > 1 ==> used <= budget
    {
      var turn := history[n - 1 - i];
      SumNext(TurnCosts(history), i);
      if used + |turn.text| > budget && kept != [] {
        break;
      }
      kept := kept + [turn];
      used := used + |turn.text|;
    }
    trimmed := Reverse(kept);
    assert forall i :: 0 <= i < |trimmed| ==> trimmed[i] == history[n - |trimmed| + i];
    FitIsLastFit(history, budget, |trimmed|);
  }

  // ---- command output ----

  /** Lines with their terminators. */
  function LineCosts(lines: seq<string>): (costs: seq<nat>)
    ensures |costs| == |lines|
    ensures forall i :: 0 <= i < |lines| ==> costs[i] == |lines[i]| + 1
  {
    seq(|lines|, i requires 0 <= i < |lines| => |lines[i]| + 1)
  }

  method KeepLines(lines: seq<string>, budget: int) returns (kept: seq<string>)
    ensures kept <= lines && LongestFit(LineCosts(lines), budget, |kept|)
  {
    var used := 0;
    kept := [];
    for i := 0 to |lines|
      invariant kept == lines[..i]
      invariant used == Sum(LineCosts(lines)[..i])
      invariant i > 1 ==> used <= budget
    {
      SumNext(LineCosts(lines), i);
      if used + |lines[i]| + 1 > budget && kept != [] {
        break;
      }
      kept := kept + [lines[i]];
      used := used + |lines[i]| + 1;
    }
  }

  lemma {:induction false} LineCostsTotal(lines: seq<string>)
    requires lines != []
    ensures Sum(LineCosts(lines)) == |Join(lines, "\n")| + 1
  {
    var n := |lines| - 1;
    assert LineCosts(lines)[..n] == LineCosts(lines[..n]);
    if n == 0 {
      assert Sum(LineCosts(lines[..n])) == 0;
    } else {
      LineCostsTotal(lines[..n]);
      assert lines == lines[..n] + [lines[n]];
      JoinAppend(lines[..n], [lines[n]], "\n");
    }
  }

  /** The first `k` lines fit with a newline behind each, at least one, and one more would not. */
  predicate LinesFit(lines: seq<string>, budget: int, k: nat) {
    && k <= |lines| && (lines != [] ==> k >= 1) && (k > 1 ==> |Join(lines[..k], "\n")| + 1 <= budget)
    && (k < |lines| ==> |Join(lines[..k + 1], "\n")| + 1 > budget)
  }

  lemma FirstCosts(lines: seq<string>, k: nat)
    requires 0 < k <= |lines|
    ensures Sum(LineCosts(lines)[..k]) == |Join(lines[..k], "\n")| + 1
  {
    assert LineCosts(lines)[..k] == LineCosts(lines[..k]);
    LineCostsTotal(lines[..k]);
  }

  lemma FitIsLinesFit(lines: seq<string>, budget: int, k: nat)
    requires LongestFit(LineCosts(lines), budget, k)
    ensures LinesFit(lines, budget, k)
  {
    if k > 0 {
      FirstCosts(lines, k);
    }
    if k < |lines| {
      FirstCosts(lines, k + 1);
    }
  }

  /** `s.replace("\r\n", "\n")` */
  function PlainNewlines(s: string): string {
    if s == "" then ""
    else if |s| > 1 && s[0] == '\r' && s[1] == '\n' then "\n" + PlainNewlines(s[2..])
    else [s[0]] + PlainNewlines(s[1..])
  }

  /** ssh's own farewell when a terminal was forced. */
  predicate Farewell(line: string) {
    StartsWith(line, "Connection to ") && EndsWith(line, "closed.")
  }

  function WithoutFarewell(lines: seq<string>): (out: seq<string>)
    ensures forall line :: line in out ==> line in lines && !Farewell(line)
  {
    if lines == [] then []
    else (if Farewell(lines[0]) then [] else [lines[0]]) + WithoutFarewell(lines[1..])
  }

  predicate OrdinaryLine(line: string) {
    !("Connection to " <= line && |line| >= 7 && line[|line| - 7..] == "closed.")
  }

  function AsIs(line: string): string {
    line
  }

  lemma FarewellIff(line: string)
    ensures Farewell(line) <==> !OrdinaryLine(line)
  {
  }

  lemma {:induction false} OthersStay(lines: seq<string>, keep: string -> bool)
    requires forall line :: line in lines ==> (keep(line) <==> !Farewell(line))
    ensures Selects(lines, keep, AsIs, WithoutFarewell(lines))
  {
    if lines == [] {
      SelectsNothing(keep, AsIs);
    } else {
      var rest := WithoutFarewell(lines[1..]);
      OthersStay(lines[1..], keep);
      SelectsCons(lines[0], lines[1..], keep, AsIs, rest);
      assert [lines[0]] + lines[1..] == lines && lines[0] in lines && [] + rest == rest;
    }
  }

  /** The farewell goes, and every other line stays in its place. */
  lemma OnlyFarewellsGo(lines: seq<string>)
    ensures Selects(lines, OrdinaryLine, AsIs, WithoutFarewell(lines))
  {
    forall line | line in lines
      ensures OrdinaryLine(line) <==> !Farewell(line)
    {
      FarewellIff(line);
    }
    OthersStay(lines, OrdinaryLine);
  }

  /** Up to the first CR LF the text stays; that becomes one LF, and the rest is treated in the same way. */
  lemma {:induction false} PlainNewlinesFirst(a: string, b: string)
    requires !Contains(a, "\r\n")
    ensures PlainNewlines(a + "\r\n" + b) == a + "\n" + PlainNewlines(b)
  {
    var s := a + "\r\n" + b;
    if a == "" {
      assert s[2..] == b;
    } else {
      assert s[1..] == a[1..] + "\r\n" + b;
      NoBreakInTail(a);
      PlainNewlinesFirst(a[1..], b);
    }
  }

  lemma {:induction false} PlainNewlinesNone(a: string)
    requires !Contains(a, "\r\n")
    ensures PlainNewlines(a) == a
  {
    if a != "" {
      NoBreakInTail(a);
      PlainNewlinesNone(a[1..]);
      assert [a[0]] + a[1..] == a;
    }
  }

  lemma NoBreakInTail(a: string)
    requires a != "" && !Contains(a, "\r\n")
    ensures !Contains(a[1..], "\r\n") && (|a| > 1 ==> a[0] != '\r' || a[1] != '\n')
  {
    if Contains(a[1..], "\r\n") {
      ContainsTail(a, "\r\n");
    }
    if |a| > 1 {
      assert a[0..2] == [a[0], a[1]];
      assert !At(a, 0, "\r\n");
    }
  }

  function CleanOutput(s: string): string {
    Join(WithoutFarewell(Split(PlainNewlines(s), '\n')), "\n")
  }

  /** The other lines, in their order and with plain newlines. */
  ghost predicate Cleaned(s: string, out: string) {
    exists kept :: Selects(Split(PlainNewlines(s), '\n'), OrdinaryLine, AsIs, kept) && out == Join(kept, "\n")
  }

  lemma CleanOutputIs(s: string)
    ensures Cleaned(s, CleanOutput(s))
  {
    OnlyFarewellsGo(Split(PlainNewlines(s), '\n'));
  }

  datatype ClipInfo = ClipInfo(truncated: bool, totalLines: nat, shownLines: nat)

  /** The output shown to the model; `note` words the remark that only some lines are shown. */
  method Clip(output: string, maxOutput: int, note: (nat, nat) -> string) returns (shown: string, info: ClipInfo)
    ensures var s := CleanOutput(output);
            var lines := Split(s, '\n');
            && info.totalLines == |lines|
            && (info.truncated <==> 0 < maxOutput < |s|)
            && (!info.truncated ==> shown == s && info.shownLines == |lines|)
            && (info.truncated ==>
                 && LongestFit(LineCosts(lines), maxOutput, info.shownLines)
                 && shown == Join(lines[..info.shownLines], "\n") + "\n" + note(|lines|, info.shownLines))
    ensures Cleaned(output, CleanOutput(output))
    ensures info.truncated ==> LinesFit(Split(CleanOutput(output), '\n'), maxOutput, info.shownLines)
    ensures info.truncated && info.totalLines >= 2 ==> info.shownLines < info.totalLines
  {
    var s := CleanOutput(output);
    var lines := Split(s, '\n');
    CleanOutputIs(output);
    if maxOutput <= 0 || |s| <= maxOutput {
      return s, ClipInfo(false, |lines|, |lines|);
    }
    var kept := KeepLines(lines, maxOutput);
    JoinSplit(s, '\n');
    LineCostsTotal(lines);
    assert LineCosts(lines)[..|lines|] == LineCosts(lines);
    assert kept == lines[..|kept|];
    shown := Join(kept, "\n") + "\n" + note(|lines|, |kept|);
    info := ClipInfo(true, |lines|, |kept|);
    FitIsLinesFit(lines, maxOutput, |kept|);
  }
}
