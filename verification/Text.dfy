/** Strings as the modelled code uses them: substrings, joining, splitting and stripping; and ascending row ids. */
module Text {

  datatype Option<+T> = None | Some(value: T)

  datatype Result<+T> = Ok(value: T) | Err

  /** `sub` occurs in `s` at position `i`. */
  predicate At(s: string, i: nat, sub: string) {
    i + |sub| <= |s| && s[i..i + |sub|] == sub
  }

  /** `sub in s` */
  predicate Contains(s: string, sub: string) {
    exists i: nat :: i <= |s| && At(s, i, sub)
  }

  /** `s.startswith(prefix)` */
  predicate StartsWith(s: string, prefix: string) {
    prefix <= s
  }

  /** `s.endswith(suffix)` */
  predicate EndsWith(s: string, suffix: string) {
    |suffix| <= |s| && s[|s| - |suffix|..] == suffix
  }

  /** `"".join(ss)` */
  function Concat(ss: seq<string>): string {
    if ss == [] then "" else ss[0] + Concat(ss[1..])
  }

  /** `sep.join(ss)` */
  function Join(ss: seq<string>, sep: string): string {
    if ss == [] then "" else if |ss| == 1 then ss[0] else ss[0] + sep + Join(ss[1..], sep)
  }

  /** `s.split(c)` for a one-character separator; never empty. */
  function Split(s: string, c: char): (parts: seq<string>)
    ensures |parts| >= 1
  {
    if s == "" then [""]
    else
      var rest := Split(s[1..], c);
      if s[0] == c then [""] + rest else [[s[0]] + rest[0]] + rest[1..]
  }

  /** `[x for x in ss if x]` */
  function NonEmpty(ss: seq<string>): seq<string> {
    if ss == [] then [] else (if ss[0] == "" then [] else [ss[0]]) + NonEmpty(ss[1..])
  }

  /** `s.lstrip()` */
  function StripLeft(space: char -> bool, s: string): string {
    if s != "" && space(s[0]) then StripLeft(space, s[1..]) else s
  }

  /** `s.rstrip()` */
  function StripRight(space: char -> bool, s: string): string {
    if s != "" && space(s[|s| - 1]) then StripRight(space, s[..|s| - 1]) else s
  }

  /** `s.strip()` */
  function Strip(space: char -> bool, s: string): string {
    StripRight(space, StripLeft(space, s))
  }

  /** `s.rsplit(c, 1)[-1]` */
  function AfterLast(s: string, c: char): string {
    var parts := Split(s, c);
    parts[|parts| - 1]
  }

  predicate IsDigit(c: char) { '0' <= c <= '9' }

  /** `[0-9a-f]` */
  predicate IsHex(c: char) { IsDigit(c) || 'a' <= c <= 'f' }

  /** Row ids in ascending order, each once. */
  predicate Increasing(ids: seq<nat>) {
    forall i, j :: 0 <= i < j < |ids| ==> ids[i] < ids[j]
  }

  lemma Associative<T>(a: seq<T>, b: seq<T>, c: seq<T>)
    ensures (a + b) + c == a + (b + c)
  {
  }

  lemma ConcatCons(s: string, ss: seq<string>)
    ensures Concat([s] + ss) == s + Concat(ss)
  {
    assert ([s] + ss)[1..] == ss;
  }

  lemma {:induction false} ConcatAppend(a: seq<string>, b: seq<string>)
    ensures Concat(a + b) == Concat(a) + Concat(b)
  {
    if a == [] {
      assert a + b == b;
    } else {
      assert (a + b)[1..] == a[1..] + b;
      ConcatAppend(a[1..], b);
    }
  }

  lemma ConcatSnoc(ss: seq<string>, last: string)
    ensures Concat(ss + [last]) == Concat(ss) + last
  {
    ConcatAppend(ss, [last]);
    assert Concat([last]) == last + "" == last;
  }

  lemma {:induction false} JoinSplit(s: string, c: char)
    ensures Join(Split(s, c), [c]) == s
  {
    if s != "" {
      JoinSplit(s[1..], c);
      var rest := Split(s[1..], c);
      if s[0] == c {
        assert ([""] + rest)[1..] == rest;
      } else {
        var parts := [[s[0]] + rest[0]] + rest[1..];
        assert parts[1..] == rest[1..];
        if |rest| > 1 {
          assert Join(parts, [c]) == [s[0]] + (rest[0] + [c] + Join(rest[1..], [c]));
        }
      }
    }
  }

  lemma ContainsTail(s: string, sub: string)
    requires s != "" && Contains(s[1..], sub)
    ensures Contains(s, sub)
  {
    var i: nat :| i <= |s[1..]| && At(s[1..], i, sub);
    assert s[i + 1..i + 1 + |sub|] == s[1..][i..i + |sub|];
    assert At(s, i + 1, sub);
  }

  lemma ContainsTrans(s: string, mid: string, sub: string)
    requires Contains(s, mid) && Contains(mid, sub)
    ensures Contains(s, sub)
  {
    var i: nat :| i <= |s| && At(s, i, mid);
    var j: nat :| j <= |mid| && At(mid, j, sub);
    var found := s[i + j..i + j + |sub|];
    forall k | 0 <= k < |sub|
      ensures found[k] == sub[k]
    {
      assert s[i..i + |mid|][j + k] == mid[j..j + |sub|][k];
    }
    assert found == sub;
    assert At(s, i + j, sub);
  }

  /** Each joined part is a substring of the whole. */
  lemma {:induction false} JoinContains(ss: seq<string>, sep: string, k: nat)
    requires k < |ss|
    ensures Contains(Join(ss, sep), ss[k])
  {
    if |ss| == 1 {
      assert At(ss[0], 0, ss[0]);
    } else if k == 0 {
      assert At(Join(ss, sep), 0, ss[0]);
    } else {
      var rest := Join(ss[1..], sep);
      JoinContains(ss[1..], sep, k - 1);
      assert At(Join(ss, sep), |ss[0]| + |sep|, rest);
      ContainsTrans(Join(ss, sep), rest, ss[k]);
    }
  }

  lemma {:induction false} JoinAppend(a: seq<string>, b: seq<string>, sep: string)
    requires a != [] && b != []
    ensures Join(a + b, sep) == Join(a, sep) + sep + Join(b, sep)
  {
    if |a| == 1 {
      assert (a + b)[1..] == b;
    } else {
      assert (a + b)[1..] == a[1..] + b;
      JoinAppend(a[1..], b, sep);
    }
  }

  /** `base` is the end of `s` behind its last `c`, or all of it. */
  predicate BehindLast(s: string, c: char, base: string) {
    c !in base && EndsWith(s, base) && (|base| < |s| ==> s[|s| - |base| - 1] == c)
  }

  lemma BehindLastStays(s: string, c: char, base: string)
    requires s != "" && BehindLast(s[1..], c, base) && (s[0] == c || |base| < |s| - 1)
    ensures BehindLast(s, c, base)
  {
    var k := |s| - |base|;
    assert s[k..] == s[1..][k - 1..];
  }

  lemma BehindLastGrows(s: string, c: char)
    requires s != "" && s[0] != c && c !in s[1..]
    ensures BehindLast(s, c, s) && [s[0]] + s[1..] == s
  {
    assert s == [s[0]] + s[1..];
    assert s[|s| - |s|..] == s;
  }

  lemma AfterLastStep(s: string, c: char)
    requires s != ""
    ensures var rest, more := Split(s[1..], c), |Split(s[1..], c)| > 1;
            && AfterLast(s, c) == (if s[0] == c || more then AfterLast(s[1..], c) else [s[0]] + rest[0])
            && (|Split(s, c)| > 1 <==> s[0] == c || more)
  {
  }

  /** The end of the text behind the last `c`. */
  lemma {:induction false} AfterLastIs(s: string, c: char)
    ensures BehindLast(s, c, AfterLast(s, c))
    ensures if |Split(s, c)| == 1 then AfterLast(s, c) == s else |AfterLast(s, c)| < |s|
  {
    if s != "" {
      AfterLastIs(s[1..], c);
      AfterLastStep(s, c);
      if s[0] == c || |Split(s[1..], c)| > 1 {
        BehindLastStays(s, c, AfterLast(s[1..], c));
      } else {
        BehindLastGrows(s, c);
      }
    }
  }
}
