/** What a reviewed answer has to be, said without the guard's own functions (agent_server/main.py:607-668). */
module AnswerRules {
  import opened Text
  import opened TextLaws
  import opened Selections
  import opened AnswerGuard
  import opened AnswerPatterns

  /** The line holds an address or a path of the answer that the evidence does not. */
  ghost predicate Invented(x: Chars, g: Guard, answer: string, line: string) {
    exists m :: Named(x, answer, m) && !InEvidence(g, m) && Contains(line, m)
  }

  predicate PointsToGuide(answer: string) {
    Contains(answer, MARKERS[0]) || Contains(answer, MARKERS[1]) || Contains(answer, MARKERS[2])
  }

  /** The positions of what counts as content. */
  function Content(x: Chars, s: string): set<nat> {
    set i: nat | i < |s| && !x.space(s[i]) && s[i] !in "#-*>|`0123456789."
  }

  /** Behind a remark comes the way to the staff, if there is one. */
  predicate Closes(g: Guard, text: string, reviewed: string) {
    reviewed == text + if g.intake == "" then "" else "\n" + "\n" + (INTAKE + " " + g.intake)
  }

  /** The lines without invented values, stripped. */
  ghost predicate Remains(x: Chars, g: Guard, answer: string, kept: seq<string>, body: string) {
    && Selects(Split(answer, '\n'), (line: string) => !Invented(x, g, answer, line), (line: string) => line, kept)
    && Trims(x.space, Join(kept, "\n"), body)
  }

  ghost predicate CutDown(x: Chars, g: Guard, answer: string, body: string, reviewed: string) {
    if |Content(x, body)| < 20 then Closes(g, FALLBACK, reviewed)
    else Closes(g, body + ("\n" + "\n" + REMOVED), reviewed)
  }

  ghost predicate RightlyReviewed(x: Chars, g: Guard, answer: string, reviewed: string) {
    if !g.enabled || AllSpace(x.space, answer) then reviewed == answer
    else if !g.searchedManual && PointsToGuide(answer) then Closes(g, FALLBACK, reviewed)
    else if forall m :: Named(x, answer, m) ==> InEvidence(g, m) then reviewed == answer
    else exists kept, body :: Remains(x, g, answer, kept, body) && CutDown(x, g, answer, body, reviewed)
  }

  lemma InventedIff(x: Chars, g: Guard, answer: string, line: string)
    requires Proper(x)
    ensures Tainted(line, Ungrounded(x, g, answer)) <==> Invented(x, g, answer, line)
  {
    if Tainted(line, Ungrounded(x, g, answer)) {
      var m :| m in Ungrounded(x, g, answer) && Contains(line, m);
      FoundIff(x, answer, m);
    }
    if Invented(x, g, answer, line) {
      var m :| Named(x, answer, m) && !InEvidence(g, m) && Contains(line, m);
      FoundIff(x, answer, m);
      assert m in Ungrounded(x, g, answer);
    }
  }

  lemma NothingInvented(x: Chars, g: Guard, answer: string)
    requires Proper(x)
    ensures Ungrounded(x, g, answer) == {} <==> forall m :: Named(x, answer, m) ==> InEvidence(g, m)
  {
    if Ungrounded(x, g, answer) == {} {
      forall m | Named(x, answer, m)
        ensures InEvidence(g, m)
      {
        FoundIff(x, answer, m);
        assert m !in Ungrounded(x, g, answer);
      }
    } else {
      var m :| m in Ungrounded(x, g, answer);
      FoundIff(x, answer, m);
    }
  }

  lemma {:induction false} KeptLinesSelects(lines: seq<string>, bad: set<string>, keep: string -> bool)
    requires forall line :: keep(line) <==> !Tainted(line, bad)
    ensures Selects(lines, keep, (line: string) => line, KeptLines(lines, bad))
  {
    var same := (line: string) => line;
    if lines == [] {
      SelectsNothing(keep, same);
    } else {
      KeptLinesSelects(lines[1..], bad, keep);
      SelectsCons(lines[0], lines[1..], keep, same, KeptLines(lines[1..], bad));
      assert [lines[0]] + lines[1..] == lines;
      assert [] + KeptLines(lines[1..], bad) == KeptLines(lines[1..], bad);
    }
  }

  lemma {:induction false} SubstanceCounts(x: Chars, s: string)
    ensures Substance(x, s) == |Content(x, s)|
  {
    if s != "" {
      var n := |s| - 1;
      SubstanceCounts(x, s[..n]);
      ContentSnoc(x, s[..n], s[n]);
      assert s[..n] + [s[n]] == s;
    }
  }

  lemma ContentSnoc(x: Chars, s: string, c: char)
    ensures |Content(x, s + [c])| == |Content(x, s)| + if x.space(c) || c in "#-*>|`0123456789." then 0 else 1
  {
    var more := Content(x, s + [c]);
    var here: set<nat> := if x.space(c) || c in "#-*>|`0123456789." then {} else {|s|};
    assert more == Content(x, s) + here;
  }

  lemma BodyRemains(x: Chars, g: Guard, answer: string)
    requires Proper(x)
    ensures var kept := KeptLines(Split(answer, '\n'), Ungrounded(x, g, answer));
            Remains(x, g, answer, kept, KeptBody(x, g, answer))
  {
    var keep := (line: string) => !Invented(x, g, answer, line);
    var bad := Ungrounded(x, g, answer);
    forall line
      ensures keep(line) <==> !Tainted(line, bad)
    {
      InventedIff(x, g, answer, line);
    }
    KeptLinesSelects(Split(answer, '\n'), bad, keep);
    StripTrims(x.space, Join(KeptLines(Split(answer, '\n'), bad), "\n"));
  }

  lemma MarkersAre(answer: string)
    ensures HasMarker(answer) <==> PointsToGuide(answer)
  {
    if PointsToGuide(answer) {
      var k := if Contains(answer, MARKERS[0]) then 0 else if Contains(answer, MARKERS[1]) then 1 else 2;
      assert Contains(answer, MARKERS[k]);
    }
  }

  /** The review does what it has to. */
  lemma ReviewIsRight(x: Chars, g: Guard, answer: string)
    requires Proper(x)
    ensures RightlyReviewed(x, g, answer, Review(x, g, answer))
  {
    MarkersAre(answer);
    NothingInvented(x, g, answer);
    if g.enabled && !Blank(x, answer) && (g.searchedManual || !HasMarker(answer)) && Ungrounded(x, g, answer) != {} {
      var body := KeptBody(x, g, answer);
      BodyRemains(x, g, answer);
      SubstanceCounts(x, body);
      Associative(body, "\n" + "\n" + REMOVED, IntakeLine(g));
      assert CutDown(x, g, answer, body, Review(x, g, answer));
    }
  }

  /** An answer is blocked when the refusal stands for it; any other one comes out itself or cut down. */
  lemma BlockedIs(x: Chars, g: Guard, answer: string)
    ensures if Blocked(x, g, answer) then Closes(g, FALLBACK, Review(x, g, answer))
            else Review(x, g, answer) == answer || Review(x, g, answer) == Cleaned(x, g, answer)
    ensures Blocked(x, g, answer) ==> g.enabled && !AllSpace(x.space, answer)
  {
  }

  lemma {:induction false} CallsManualIff(x: Chars, calls: seq<string>)
    ensures CallsManual(x, calls) <==> exists i :: 0 <= i < |calls| && Contains(x.lower(calls[i]), "manual")
  {
    if calls != [] {
      CallsManualIff(x, calls[..|calls| - 1]);
    }
  }
}
