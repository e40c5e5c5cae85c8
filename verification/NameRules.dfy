/** How a tool name is made from a title and a command, said without the functions that do it
    (shared/execution_exec.py:103-130). */
module NameRules {
  import opened Text
  import opened Selections
  import opened ToolNames

  // ---- placeholders ----

  lemma {:induction false} ClosingBraceAt(inner: string, b: string)
    requires '}' !in inner
    ensures ClosingBrace(inner + "}" + b) == Some(|inner|)
  {
    if inner != "" {
      assert (inner + "}" + b)[1..] == inner[1..] + "}" + b;
      ClosingBraceAt(inner[1..], b);
    }
  }

  lemma {:induction false} NoClosingBrace(s: string)
    requires '}' !in s
    ensures ClosingBrace(s) == None
  {
    if s != "" {
      NoClosingBrace(s[1..]);
    }
  }

  /** The first opening brace and everything up to the next closing one become a blank, and so on behind it. */
  lemma {:induction false} BlankFirst(a: string, inner: string, b: string)
    requires '{' !in a && '}' !in inner
    ensures BlankBraces(a + "{" + inner + "}" + b) == a + " " + BlankBraces(b)
  {
    var s := a + "{" + inner + "}" + b;
    if a == "" {
      assert s[1..] == inner + "}" + b;
      ClosingBraceAt(inner, b);
      assert s[|inner| + 2..] == b;
      assert "" + " " + BlankBraces(b) == " " + BlankBraces(b);
    } else {
      assert s[1..] == a[1..] + "{" + inner + "}" + b;
      BlankFirst(a[1..], inner, b);
      assert [a[0]] + a[1..] == a;
    }
  }

  /** Without a closing brace behind the first opening one the text stays. */
  lemma {:induction false} BlankNone(a: string, b: string)
    requires '{' !in a && '}' !in b
    ensures BlankBraces(a + b) == a + b
    decreases |a| + |b|
  {
    var s := a + b;
    if a != "" {
      assert s[1..] == a[1..] + b;
      BlankNone(a[1..], b);
    } else if b != "" {
      assert s == b;
      NoClosingBrace(b[1..]);
      assert "" + b[1..] == b[1..];
      BlankNone("", b[1..]);
    }
  }

  // ---- words ----

  predicate WordChar(c: char) {
    'a' <= c <= 'z' || 'A' <= c <= 'Z' || '0' <= c <= '9' || c == '_'
  }

  /** Other characters, a word, and the rest. */
  predicate WordAhead(s: string, gap: string, word: string, rest: string) {
    && s == gap + (word + rest) && word != "" && (rest != "" ==> !WordChar(rest[0]))
    && (forall i :: 0 <= i < |gap| ==> !WordChar(gap[i])) && forall i :: 0 <= i < |word| ==> WordChar(word[i])
  }

  /** The longest stretches of word characters, in their order. */
  ghost predicate WordsAre(s: string, words: seq<string>)
    decreases |words|
  {
    if words == [] then forall i :: 0 <= i < |s| ==> !WordChar(s[i])
    else exists gap, rest :: WordAhead(s, gap, words[0], rest) && WordsAre(rest, words[1..])
  }

  lemma WordsCons(s: string, gap: string, word: string, rest: string, words: seq<string>)
    requires WordAhead(s, gap, word, rest) && WordsAre(rest, words)
    ensures WordsAre(s, [word] + words)
  {
    var all := [word] + words;
    assert all[0] == word && all[1..] == words;
  }

  lemma OtherInFront(c: char, s: string, words: seq<string>)
    requires !WordChar(c) && WordsAre(s, words)
    ensures WordsAre([c] + s, words)
  {
    if words != [] {
      var gap, rest :| WordAhead(s, gap, words[0], rest) && WordsAre(rest, words[1..]);
      Associative([c], gap, words[0] + rest);
      assert WordAhead([c] + s, [c] + gap, words[0], rest);
    }
  }

  /** A character in front of a word lengthens it; in front of anything else it is a word of its own. */
  lemma CharInFront(c: char, s: string, words: seq<string>)
    requires WordChar(c) && WordsAre(s, words)
    ensures if s != "" && WordChar(s[0]) then words != [] && WordsAre([c] + s, [[c] + words[0]] + words[1..])
            else WordsAre([c] + s, [[c]] + words)
  {
    if s != "" && WordChar(s[0]) {
      var gap, rest :| WordAhead(s, gap, words[0], rest) && WordsAre(rest, words[1..]);
      NoGap(s, gap, words[0], rest);
      LongerWord(c, s, words[0], rest);
      WordsCons([c] + s, "", [c] + words[0], rest, words[1..]);
    } else {
      assert [c] + s == "" + ([c] + s);
      WordsCons([c] + s, "", [c], s, words);
    }
  }

  lemma NoGap(s: string, gap: string, word: string, rest: string)
    requires s != "" && WordChar(s[0]) && WordAhead(s, gap, word, rest)
    ensures gap == "" && s == word + rest
  {
    if gap != "" {
      FirstOfGap(s, gap, word + rest);
    }
    assert "" + (word + rest) == word + rest;
  }

  lemma FirstOfGap(s: string, gap: string, tail: string)
    requires s == gap + tail && gap != "" && forall i :: 0 <= i < |gap| ==> !WordChar(gap[i])
    ensures !WordChar(s[0])
  {
    assert s[0] == gap[0];
  }

  lemma LongerWord(c: char, s: string, word: string, rest: string)
    requires WordChar(c) && WordAhead(s, "", word, rest)
    ensures WordAhead([c] + s, "", [c] + word, rest)
  {
    assert [c] + s == "" + ([c] + word + rest);
  }

  /** The first piece is empty exactly when the text does not begin with a word character. */
  lemma FirstPiece(s: string)
    ensures Pieces(s)[0] != "" <==> s != "" && WordChar(s[0])
  {
  }

  lemma NonEmptyCons(p: string, ps: seq<string>)
    ensures NonEmpty([p] + ps) == if p == "" then NonEmpty(ps) else [p] + NonEmpty(ps)
  {
    assert ([p] + ps)[1..] == ps;
    assert [] + NonEmpty(ps) == NonEmpty(ps);
  }

  lemma NonEmptyOf(ps: seq<string>)
    requires ps != []
    ensures NonEmpty(ps) == if ps[0] == "" then NonEmpty(ps[1..]) else [ps[0]] + NonEmpty(ps[1..])
  {
    assert [] + NonEmpty(ps[1..]) == NonEmpty(ps[1..]);
  }

  /** A word character in front of some pieces. */
  lemma GrownPieces(c: char, s: string, rest: seq<string>)
    requires WordChar(c) && rest != [] && WordsAre(s, NonEmpty(rest))
    requires rest[0] != "" <==> s != "" && WordChar(s[0])
    ensures WordsAre([c] + s, NonEmpty([[c] + rest[0]] + rest[1..]))
  {
    var words := NonEmpty(rest);
    CharInFront(c, s, words);
    NonEmptyOf(rest);
    NonEmptyCons([c] + rest[0], rest[1..]);
    if rest[0] == "" {
      assert [c] + rest[0] == [c];
    } else {
      assert words[0] == rest[0] && words[1..] == NonEmpty(rest[1..]);
    }
  }

  lemma {:induction false} PiecesAreWords(s: string)
    ensures WordsAre(s, NonEmpty(Pieces(s)))
  {
    if s != "" {
      var rest := Pieces(s[1..]);
      PiecesAreWords(s[1..]);
      FirstPiece(s[1..]);
      assert [s[0]] + s[1..] == s;
      if WordChar(s[0]) {
        GrownPieces(s[0], s[1..], rest);
      } else {
        OtherInFront(s[0], s[1..], NonEmpty(rest));
        NonEmptyCons("", rest);
      }
    } else {
      NonEmptyCons("", []);
      assert [""] + [] == [""];
    }
  }

  // ---- the name ----

  predicate NotNumber(word: string) {
    exists i :: 0 <= i < |word| && !('0' <= word[i] <= '9')
  }

  function AsIs(word: string): string {
    word
  }

  lemma {:induction false} UsefulSelects(ps: seq<string>)
    ensures Selects(NonEmpty(ps), NotNumber, AsIs, Useful(ps))
  {
    if ps == [] {
      SelectsNothing(NotNumber, AsIs);
    } else {
      UsefulSelects(ps[1..]);
      assert ps == [ps[0]] + ps[1..];
      NonEmptyCons(ps[0], ps[1..]);
      assert [] + Useful(ps[1..]) == Useful(ps[1..]);
      if ps[0] != "" {
        NumberIff(ps[0]);
        SelectsCons(ps[0], NonEmpty(ps[1..]), NotNumber, AsIs, Useful(ps[1..]));
      }
    }
  }

  lemma NumberIff(word: string)
    requires word != ""
    ensures AllDigits(word) <==> !NotNumber(word)
  {
  }

  /** The characters of `s` with capital letters made small. */
  predicate MadeSmall(s: string, small: string) {
    && |small| == |s|
    && forall i :: 0 <= i < |s| ==>
         small[i] == if 'A' <= s[i] <= 'Z' then (s[i] as int + 32) as char else s[i]
  }

  /** The first two words that are not numbers. */
  ghost predicate Abbreviates(clean: string, words: seq<string>, kept: seq<string>, name: string) {
    && WordsAre(clean, words) && Selects(words, NotNumber, AsIs, kept)
    && MadeSmall(if kept == [] then "" else if |kept| == 1 then kept[0] else kept[0] + "_" + kept[1], name)
  }

  lemma SmallIs(s: string)
    ensures MadeSmall(s, Lower(s))
  {
  }

  lemma AsciiOfUseful(text: string)
    ensures var kept := Useful(Pieces(BlankBraces(text)));
            Ascii(text) == Lower(if kept == [] then "" else if |kept| == 1 then kept[0] else kept[0] + "_" + kept[1])
  {
  }

  lemma AsciiIs(text: string) returns (words: seq<string>, kept: seq<string>)
    ensures Abbreviates(BlankBraces(text), words, kept, Ascii(text))
  {
    var ps := Pieces(BlankBraces(text));
    words, kept := NonEmpty(ps), Useful(ps);
    PiecesAreWords(BlankBraces(text));
    UsefulSelects(ps);
    AsciiOfUseful(text);
    SmallIs(if kept == [] then "" else if |kept| == 1 then kept[0] else kept[0] + "_" + kept[1]);
  }

  /** The beginning of a text, at most `n` characters. */
  predicate FirstPart(s: string, n: nat, part: string) {
    part <= s && |part| == if |s| < n then |s| else n
  }

  /** The abbreviated title, else the abbreviated command, else `k` and six digits of the hash of the title; with `c_`
      in front when it does not begin with a letter; cut to 60 characters. */
  lemma PlainNameIs(d: Digest, title: string, command: string)
    requires Hexadecimal(d)
    ensures var stem := if Ascii(title) != "" then Ascii(title) else if Ascii(command) != "" then Ascii(command)
                        else "k" + d.hex(title)[..6];
            FirstPart(if 'a' <= stem[0] <= 'z' then stem else "c_" + stem, 60, PlainName(d, title, command))
  {
  }

  /** 57 characters of the plain name and a number; in the end 52 and four digits of the hash of the title. */
  lemma AlternativesAre(d: Digest, title: string, plain: string, i: nat)
    requires Hexadecimal(d) && IsToolName(plain) && i < 100
    ensures exists stem, number :: && FirstPart(plain, 57, stem) && Alternative(plain, i) == stem + "_" + number
                                   && |number| == (if i < 10 then 1 else 2) && NumeralValue(number) == i
    ensures exists stem :: FirstPart(plain, 52, stem) && LastResort(d, title, plain) == stem + "_" + d.hex(title)[..4]
  {
    NumeralRoundTrip(i);
    assert FirstPart(plain, 57, Take(plain, 57)) && Alternative(plain, i) == Take(plain, 57) + "_" + Numeral(i);
    assert FirstPart(plain, 52, Take(plain, 52));
  }
}
