/** What the shared string operations mean, said without them. */
module TextLaws {
  import opened Text

  predicate AllSpace(space: char -> bool, s: string) {
    forall i :: 0 <= i < |s| ==> space(s[i])
  }

  /** No white space at either end. */
  predicate Trimmed(space: char -> bool, s: string) {
    s != "" ==> !space(s[0]) && !space(s[|s| - 1])
  }

  /** `body` is `s` without the white space around it. */
  ghost predicate Trims(space: char -> bool, s: string, body: string) {
    exists left: string, right: string :: TrimmedBy(space, s, left, body, right)
  }

  predicate TrimmedBy(space: char -> bool, s: string, left: string, body: string, right: string) {
    s == left + body + right && AllSpace(space, left) && AllSpace(space, right) && Trimmed(space, body)
  }

  lemma {:induction false} StripLeftIs(space: char -> bool, s: string) returns (left: string)
    ensures var rest := StripLeft(space, s);
            s == left + rest && AllSpace(space, left) && (rest != "" ==> !space(rest[0]))
  {
    if s != "" && space(s[0]) {
      var more := StripLeftIs(space, s[1..]);
      left := [s[0]] + more;
      assert s == [s[0]] + s[1..];
    } else {
      left := "";
      assert s == "" + s;
    }
  }

  lemma {:induction false} StripRightIs(space: char -> bool, s: string) returns (right: string)
    ensures var rest := StripRight(space, s);
            s == rest + right && AllSpace(space, right) && (rest != "" ==> !space(rest[|rest| - 1]) && rest[0] == s[0])
  {
    if s != "" && space(s[|s| - 1]) {
      var n := |s| - 1;
      var more := StripRightIs(space, s[..n]);
      right := more + [s[n]];
      assert s == s[..n] + [s[n]];
    } else {
      right := "";
      assert s == s + "";
    }
  }

  /** `out` is `s` without the white space at its end. */
  ghost predicate RightTrims(space: char -> bool, s: string, out: string) {
    && out <= s && AllSpace(space, s[|out|..]) && (out != "" ==> !space(out[|out| - 1]))
  }

  lemma StripRightIff(space: char -> bool, s: string, out: string)
    ensures RightTrims(space, s, out) <==> out == StripRight(space, s)
  {
    var right := StripRightIs(space, s);
    var stripped := StripRight(space, s);
    assert s[|stripped|..] == right;
    if RightTrims(space, s, out) {
      NotLongerTrim(space, s, out, stripped);
      NotLongerTrim(space, s, stripped, out);
      assert out == s[..|out|] == stripped;
    }
  }

  lemma NotLongerTrim(space: char -> bool, s: string, a: string, b: string)
    requires RightTrims(space, s, a) && b <= s && (b != "" ==> !space(b[|b| - 1]))
    ensures |b| <= |a|
  {
    if |a| < |b| {
      LongerTrim(space, s, a, b);
    }
  }

  lemma LongerTrim(space: char -> bool, s: string, a: string, b: string)
    requires |a| < |b| && b <= s && !space(b[|b| - 1])
    ensures !AllSpace(space, s[|a|..])
  {
    assert s[|a|..][|b| - 1 - |a|] == b[|b| - 1];
  }

  lemma StripTrims(space: char -> bool, s: string)
    ensures Trims(space, s, Strip(space, s))
  {
    var left := StripLeftIs(space, s);
    var mid := StripLeft(space, s);
    var right := StripRightIs(space, mid);
    var body := Strip(space, s);
    assert s == left + body + right;
    assert TrimmedBy(space, s, left, body, right);
  }

  lemma OneTrimming(space: char -> bool, s: string, left: string, body: string, right: string, left2: string,
        body2: string, right2: string)
    requires TrimmedBy(space, s, left, body, right) && TrimmedBy(space, s, left2, body2, right2) && body != ""
    ensures |left2| <= |left| && (body2 != "" ==> |right2| <= |right|)
  {
    var n := |s| - |right| - 1;
    assert s[|left|] == body[0] && s[n] == body[|body| - 1];
  }

  /** There is only one such text. */
  lemma StripIff(space: char -> bool, s: string, body: string)
    ensures Trims(space, s, body) <==> body == Strip(space, s)
  {
    StripTrims(space, s);
    var other := Strip(space, s);
    if Trims(space, s, body) {
      var left, right :| TrimmedBy(space, s, left, body, right);
      var left2, right2 :| TrimmedBy(space, s, left2, other, right2);
      if body != "" && other != "" {
        OneTrimming(space, s, left, body, right, left2, other, right2);
        OneTrimming(space, s, left2, other, right2, left, body, right);
        assert body == s[|left|..|s| - |right|] == other;
      } else if body != "" {
        SomethingTrimmed(space, s, left, body, right);
        NothingTrimmed(space, s, left2, right2);
      } else if other != "" {
        SomethingTrimmed(space, s, left2, other, right2);
        NothingTrimmed(space, s, left, right);
      }
    }
  }

  lemma NothingTrimmed(space: char -> bool, s: string, left: string, right: string)
    requires TrimmedBy(space, s, left, "", right)
    ensures AllSpace(space, s)
  {
    assert s == left + right;
  }

  lemma SomethingTrimmed(space: char -> bool, s: string, left: string, body: string, right: string)
    requires TrimmedBy(space, s, left, body, right) && body != ""
    ensures !AllSpace(space, s)
  {
    assert s[|left|] == body[0];
  }

  // ---- splitting and joining ----

  lemma {:induction false} SplitHasNone(s: string, c: char)
    ensures forall part :: part in Split(s, c) ==> c !in part
  {
    if s != "" {
      SplitHasNone(s[1..], c);
      var rest := Split(s[1..], c);
      assert rest[0] in rest;
    }
  }

  lemma {:induction false} SplitPlain(a: string, c: char)
    requires c !in a
    ensures Split(a, c) == [a]
  {
    if a != "" {
      SplitPlain(a[1..], c);
      assert [a[0]] + a[1..] == a;
    }
  }

  lemma {:induction false} SplitFirst(a: string, b: string, c: char)
    requires c !in a
    ensures Split(a + [c] + b, c) == [a] + Split(b, c)
  {
    if a == "" {
      assert (a + [c] + b)[1..] == b;
    } else {
      assert (a + [c] + b)[1..] == a[1..] + [c] + b;
      SplitFirst(a[1..], b, c);
      assert [a[0]] + a[1..] == a;
    }
  }

  lemma {:induction false} SplitJoin(parts: seq<string>, c: char)
    requires parts != [] && forall part :: part in parts ==> c !in part
    ensures Split(Join(parts, [c]), c) == parts
  {
    if |parts| == 1 {
      SplitPlain(parts[0], c);
    } else {
      SplitJoin(parts[1..], c);
      SplitFirst(parts[0], Join(parts[1..], [c]), c);
      assert [parts[0]] + parts[1..] == parts;
    }
  }

  /** The parts of a text are the only texts without the separator that make it up again. */
  lemma SplitIff(s: string, c: char, parts: seq<string>)
    ensures parts == Split(s, c) <==>
              parts != [] && (forall part :: part in parts ==> c !in part) && Join(parts, [c]) == s
  {
    SplitHasNone(s, c);
    JoinSplit(s, c);
    if parts != [] && (forall part :: part in parts ==> c !in part) && Join(parts, [c]) == s {
      SplitJoin(parts, c);
    }
  }

  /** Exactly one end of a text lies behind its last `c`. */
  lemma AfterLastIff(s: string, c: char, base: string)
    ensures BehindLast(s, c, base) <==> base == AfterLast(s, c)
  {
    AfterLastIs(s, c);
    if BehindLast(s, c, base) {
      NotLonger(s, c, base, AfterLast(s, c));
      NotLonger(s, c, AfterLast(s, c), base);
    }
  }

  lemma NotLonger(s: string, c: char, a: string, b: string)
    requires BehindLast(s, c, a) && BehindLast(s, c, b)
    ensures |b| <= |a|
  {
    if |a| < |b| {
      LongerEnd(s, c, a, b);
    }
  }

  lemma LongerEnd(s: string, c: char, a: string, b: string)
    requires EndsWith(s, a) && EndsWith(s, b) && c !in b && |a| < |b|
    ensures s[|s| - |a| - 1] != c
  {
    assert b[|b| - |a| - 1] == s[|s| - |a| - 1];
  }
}
