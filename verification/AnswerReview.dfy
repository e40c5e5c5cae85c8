/** The answer guard as the agent runs it: evidence is gathered, then the finished answer is reviewed
    (agent_server/main.py). */
module AnswerReview {
  import opened Text
  import opened Rules = AnswerGuard
  import opened AnswerGrounding
  import opened AnswerPatterns
  import opened AnswerRules
  import opened Selections
  import opened TextLaws

  function Elements(ss: seq<string>): set<string> {
    set s | s in ss
  }

  lemma ElementsAppend(a: seq<string>, b: seq<string>)
    ensures Elements(a + b) == Elements(a) + Elements(b)
  {
  }

  /** The matches the evidence lacks. */
  function Lacking(g: Guard, matches: seq<string>): set<string> {
    set m | m in matches && !Contains(Haystack(g), m)
  }

  /** The same for the matches of some of the patterns. */
  function Unsupported(x: Chars, g: Guard, answer: string, kinds: seq<Kind>): set<string> {
    if kinds == [] then {}
    else
      Unsupported(x, g, answer, kinds[..|kinds| - 1]) + Lacking(g, FindAll(x, kinds[|kinds| - 1], answer, 0))
  }

  lemma UnsupportedSnoc(x: Chars, g: Guard, answer: string, kinds: seq<Kind>, kind: Kind)
    ensures Unsupported(x, g, answer, kinds + [kind])
         == Unsupported(x, g, answer, kinds) + Lacking(g, FindAll(x, kind, answer, 0))
  {
    assert (kinds + [kind])[..|kinds|] == kinds;
  }

  lemma UnsupportedBoth(x: Chars, g: Guard, answer: string)
    ensures Unsupported(x, g, answer, [Address, Path]) == Ungrounded(x, g, answer)
  {
    UnsupportedSnoc(x, g, answer, [], Address);
    UnsupportedSnoc(x, g, answer, [Address], Path);
    assert [] + [Address] == [Address] && [Address] + [Path] == [Address, Path];
  }

  lemma KeptOne(line: string, bad: set<string>)
    ensures KeptLines([line], bad) == if Tainted(line, bad) then [] else [line]
  {
    assert [line][1..] == [];
  }

  class AnswerGuard {
    const chars: Chars
    const enabled: bool
    const intake: string
    var searchedManual: bool
    var corpus: seq<string>

    function Abs(): Guard
      reads this
    {
      Guard(enabled, intake, searchedManual, corpus)
    }

    constructor (chars: Chars, enabled: bool, question: string, envText: string, intake: string)
      ensures this.chars == chars
      ensures Abs() == Guard(enabled, Strip(chars.space, intake), false, [question, envText])
    {
      this.chars, this.enabled, this.intake := chars, enabled, Strip(chars.space, intake);
      searchedManual, corpus := false, [question, envText];
    }

    /** Hits of the preliminary search count as evidence; the manual counts as searched only if it had hits. */
    method SeedRag(manualHits: seq<string>, vocHits: seq<string>)
      modifies this
      ensures Abs() == old(Abs()).(searchedManual := old(searchedManual) || manualHits != [],
                                   corpus := old(corpus) + manualHits + vocHits)
    {
      if manualHits != [] {
        searchedManual := true;
      }
      var hits := manualHits + vocHits;
      for i := 0 to |hits|
        invariant corpus == old(corpus) + hits[..i]
        invariant searchedManual == (old(searchedManual) || manualHits != [])
      {
        corpus := corpus + [hits[i]];
      }
    }

    method Observe(e: Event)
      modifies this
      ensures Abs() ==
              if !enabled then old(Abs())
              else old(Abs()).(searchedManual := old(searchedManual) || CallsManual(chars, e.calls),
                               corpus := old(corpus) + e.responses)
      ensures enabled ==>
                (searchedManual <==> old(searchedManual)
                                     || exists i :: 0 <= i < |e.calls| && Contains(chars.lower(e.calls[i]), "manual"))
    {
      if !enabled {
        return;
      }
      CallsManualIff(chars, e.calls);
      for i := 0 to |e.calls|
        invariant corpus == old(corpus)
        invariant searchedManual == (old(searchedManual) || CallsManual(chars, e.calls[..i]))
      {
        assert e.calls[..i + 1][..i] == e.calls[..i];
        if Contains(chars.lower(e.calls[i]), "manual") {
          searchedManual := true;
        }
      }
      assert e.calls[..|e.calls|] == e.calls;
      for i := 0 to |e.responses|
        invariant corpus == old(corpus) + e.responses[..i]
        invariant searchedManual == (old(searchedManual) || CallsManual(chars, e.calls))
      {
        corpus := corpus + [e.responses[i]];
      }
    }

    /** The addresses and paths of the answer without support, pattern by pattern, each once per pattern. */
    method UngroundedIn(answer: string) returns (bad: seq<string>)
      ensures Elements(bad) == Ungrounded(chars, Abs(), answer)
      ensures Proper(chars) ==> forall m :: m in bad <==> Named(chars, answer, m) && !InEvidence(Abs(), m)
    {
      bad := [];
      var kinds := [Address, Path];
      for k := 0 to |kinds|
        invariant Elements(bad) == Unsupported(chars, Abs(), answer, kinds[..k])
      {
        var matches := FindAll(chars, kinds[k], answer, 0);
        var found := UnsupportedOf(matches);
        ElementsAppend(bad, found);
        UnsupportedSnoc(chars, Abs(), answer, kinds[..k], kinds[k]);
        assert kinds[..k + 1] == kinds[..k] + [kinds[k]];
        bad := bad + found;
      }
      assert kinds[..|kinds|] == [Address, Path];
      UnsupportedBoth(chars, Abs(), answer);
      if Proper(chars) {
        forall m
          ensures m in bad <==> Named(chars, answer, m) && !InEvidence(Abs(), m)
        {
          FoundIff(chars, answer, m);
          assert m in bad <==> m in Elements(bad);
        }
      }
    }

    method UnsupportedOf(matches: seq<string>) returns (out: seq<string>)
      ensures Elements(out) == Lacking(Abs(), matches)
    {
      var seen: set<string> := {};
      out := [];
      for i := 0 to |matches|
        invariant seen == Elements(matches[..i]) && Elements(out) == Lacking(Abs(), matches[..i])
      {
        var m := matches[i];
        assert matches[..i + 1] == matches[..i] + [m];
        ElementsAppend(matches[..i], [m]);
        if m !in seen {
          seen := seen + {m};
          if !Contains(Haystack(Abs()), m) {
            ElementsAppend(out, [m]);
            out := out + [m];
          }
        }
      }
      assert matches[..|matches|] == matches;
    }

    method CleanLines(lines: seq<string>, bad: seq<string>) returns (kept: seq<string>)
      ensures kept == KeptLines(lines, Elements(bad))
      ensures Selects(lines, (line: string) => forall b :: b in bad ==> !Contains(line, b), (line: string) => line,
                      kept)
    {
      kept := [];
      for i := 0 to |lines|
        invariant kept == KeptLines(lines[..i], Elements(bad))
      {
        assert lines[..i + 1] == lines[..i] + [lines[i]];
        KeptInOrder(lines[..i], [lines[i]], Elements(bad));
        KeptOne(lines[i], Elements(bad));
        var tainted := IsTainted(lines[i], bad);
        if !tainted {
          kept := kept + [lines[i]];
        }
      }
      assert lines[..|lines|] == lines;
      KeptLinesSelects(lines, Elements(bad), (line: string) => forall b :: b in bad ==> !Contains(line, b));
    }

    method IsTainted(line: string, bad: seq<string>) returns (tainted: bool)
      ensures tainted == Tainted(line, Elements(bad))
    {
      for i := 0 to |bad|
        invariant forall j :: 0 <= j < i ==> !Contains(line, bad[j])
      {
        if Contains(line, bad[i]) {
          return true;
        }
      }
      return false;
    }

    /** Only lines with invented addresses or paths are taken out, and what comes out has none; reviewing it again would
        change nothing. */
    method ReviewAnswer(answer: string) returns (reviewed: string)
      ensures reviewed == Review(chars, Abs(), answer)
      ensures Proper(chars) ==> RightlyReviewed(chars, Abs(), answer, reviewed)
      ensures Proper(chars) && IntakeKnown(Abs()) && enabled && !AllSpace(chars.space, answer) ==>
                AllKnown(chars, Abs(), reviewed)
      ensures Proper(chars) && IntakeKnown(Abs()) && enabled && !Blank(chars, answer) ==>
                Ungrounded(chars, Abs(), reviewed) == {}
      ensures Proper(chars) && IntakeKnown(Abs()) && !HasMarker(intake) ==> Review(chars, Abs(), reviewed) == reviewed
    {
      if Proper(chars) {
        ReviewIsRight(chars, Abs(), answer);
      }
      if !enabled || Blank(chars, answer) {
        return answer;
      }
      ghost var ready := Proper(chars) && IntakeKnown(Abs());
      if ready {
        ReviewedIsGrounded(chars, Abs(), answer);
        NoneUnsupported(chars, Abs(), Review(chars, Abs(), answer));
      }
      if ready && !HasMarker(intake) {
        ReviewIsIdempotent(chars, Abs(), answer);
      }
      if !searchedManual && HasMarker(answer) {
        return Fallback(Abs());
      }
      var bad := UngroundedIn(answer);
      if bad == [] {
        return answer;
      }
      assert bad[0] in Elements(bad);
      var kept := CleanLines(Split(answer, '\n'), bad);
      var body := Strip(chars.space, Join(kept, "\n"));
      if Substance(chars, body) < 20 {
        return Fallback(Abs());
      }
      return body + (("\n" + "\n" + REMOVED) + IntakeLine(Abs()));
    }
  }
}
