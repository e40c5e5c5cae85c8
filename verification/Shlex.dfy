/** The two functions of Python's `shlex` the code relies on: `quote`, and `split` in POSIX mode. */
module Shlex {
  import opened Text
  import opened PosixShell

  predicate SafeChar(c: char) {
    'a' <= c <= 'z' || 'A' <= c <= 'Z' || '0' <= c <= '9' || c in "_@%+=:,./-"
  }

  predicate AllSafe(s: string) {
    forall i :: 0 <= i < |s| ==> SafeChar(s[i])
  }

  /** `s.replace("'", "'\"'\"'")` */
  function EscapeQuotes(s: string): string {
    if s == "" then "" else (if s[0] == '\'' then "'\"'\"'" else [s[0]]) + EscapeQuotes(s[1..])
  }

  function Quote(s: string): string {
    if s == "" then "''" else if AllSafe(s) then s else "'" + EscapeQuotes(s) + "'"
  }

  function QuoteAll(words: seq<string>): seq<string> {
    if words == [] then [] else [Quote(words[0])] + QuoteAll(words[1..])
  }

  /** `" ".join(shlex.quote(w) for w in words)` */
  function QuoteJoin(words: seq<string>): string {
    Join(QuoteAll(words), " ")
  }

  /** A word stays without quotes exactly when it is not empty and holds letters, digits and `_@%+=:,./-` only. */
  lemma BareIff(s: string)
    ensures Quote(s) == s <==>
              && s != ""
              && forall i :: 0 <= i < |s| ==>
                   || 'a' <= s[i] <= 'z' || 'A' <= s[i] <= 'Z' || '0' <= s[i] <= '9' || s[i] == '_' || s[i] == '@'
                   || s[i] == '%' || s[i] == '+' || s[i] == '=' || s[i] == ':' || s[i] == ',' || s[i] == '.'
                   || s[i] == '/' || s[i] == '-'
  {
    if s != "" && !AllSafe(s) {
      EscapedLength(s);
      assert |Quote(s)| > |s|;
    }
  }

  lemma {:induction false} EscapedLength(s: string)
    ensures |EscapeQuotes(s)| >= |s|
  {
    if s != "" {
      EscapedLength(s[1..]);
    }
  }

  // ---- shlex.split ----

  datatype ScanMode = Outside | InSingle | InDouble

  predicate IsBlank(c: char) { c in " \t\r\n" }

  function Append(word: Option<string>, s: string): Option<string> {
    match word
    case None => Some(s)
    case Some(before) => Some(before + s)
  }

  function Finish(word: Option<string>, rest: Result<seq<string>>): Result<seq<string>> {
    match (word, rest)
    case (None, _) => rest
    case (_, Err) => Err
    case (Some(w), Ok(ws)) => Ok([w] + ws)
  }

  /** An unclosed quotation and a trailing backslash are errors. */
  function Scan(s: string, mode: ScanMode, word: Option<string>): Result<seq<string>>
    decreases |s|
  {
    match mode
    case Outside =>
      if s == "" then Finish(word, Ok([]))
      else if IsBlank(s[0]) then Finish(word, Scan(s[1..], Outside, None))
      else if s[0] == '\'' then Scan(s[1..], InSingle, Append(word, ""))
      else if s[0] == '"' then Scan(s[1..], InDouble, Append(word, ""))
      else if s[0] == '\\' then
        if |s| == 1 then Err else Scan(s[2..], Outside, Append(word, [s[1]]))
      else Scan(s[1..], Outside, Append(word, [s[0]]))
    case InSingle =>
      if s == "" then Err
      else if s[0] == '\'' then Scan(s[1..], Outside, word)
      else Scan(s[1..], InSingle, Append(word, [s[0]]))
    case InDouble =>
      if s == "" then Err
      else if s[0] == '"' then Scan(s[1..], Outside, word)
      else if s[0] == '\\' then
        if |s| == 1 then Err
        else if s[1] == '"' || s[1] == '\\' then Scan(s[2..], InDouble, Append(word, [s[1]]))
        else Scan(s[2..], InDouble, Append(word, ['\\', s[1]]))
      else Scan(s[1..], InDouble, Append(word, [s[0]]))
  }

  function SplitWords(s: string): Result<seq<string>> {
    Scan(s, Outside, None)
  }

  // ---- both readers undo the quoting ----

  /** The word a shell recognises for a quoted `w`. */
  function Quoted(w: string): seq<QChar> {
    Mark(w, w == "" || !AllSafe(w))
  }

  lemma LexSingle(c: char, rest: string, mode: Mode, cs: seq<QChar>)
    requires mode.Single? || c == '\''
    ensures Lex([c] + rest, mode, Some(cs)) ==
            if mode.Plain? then Lex(rest, Single, Some(cs))
            else if mode.Double? then Lex(rest, Double, Some(cs + [QChar(c, true)]))
            else if c == '\'' then Lex(rest, Plain, Some(cs))
            else Lex(rest, Single, Some(cs + [QChar(c, true)]))
  {
    assert ([c] + rest)[1..] == rest;
    assert cs + [] == cs;
  }

  lemma LexDouble(rest: string, mode: Mode, cs: seq<QChar>)
    requires !mode.Single?
    ensures Lex(['"'] + rest, mode, Some(cs)) == Lex(rest, if mode.Plain? then Double else Plain, Some(cs))
  {
    assert (['"'] + rest)[1..] == rest;
    assert cs + [] == cs;
  }

  /** Leaving single quotes for one quoted `'` and returning to them. */
  lemma LexQuoteCharacter(rest: string, cs: seq<QChar>)
    ensures Lex("'\"'\"'" + rest, Single, Some(cs)) == Lex(rest, Single, Some(cs + [QChar('\'', true)]))
  {
    var s1 := ['\''] + rest;
    var s2 := ['"'] + s1;
    var s3 := ['\''] + s2;
    var s4 := ['"'] + s3;
    var more := cs + [QChar('\'', true)];
    assert "'\"'\"'" + rest == ['\''] + s4;
    LexSingle('\'', s4, Single, cs);
    LexDouble(s3, Plain, cs);
    LexSingle('\'', s2, Double, cs);
    LexDouble(s1, Double, more);
    LexSingle('\'', rest, Plain, more);
  }

  lemma EscapedTail(w: string, rest: string)
    requires w != ""
    ensures EscapeQuotes(w) + "'" + rest ==
            (if w[0] == '\'' then "'\"'\"'" else [w[0]]) + (EscapeQuotes(w[1..]) + "'" + rest)
  {
  }

  lemma {:induction false} LexEscaped(w: string, rest: string, cs: seq<QChar>)
    ensures Lex(EscapeQuotes(w) + "'" + rest, Single, Some(cs)) == Lex(rest, Plain, Some(cs + Mark(w, true)))
  {
    if w == "" {
      assert EscapeQuotes(w) + "'" + rest == ['\''] + rest;
      assert cs + Mark(w, true) == cs;
      LexSingle('\'', rest, Single, cs);
    } else {
      var tail := EscapeQuotes(w[1..]) + "'" + rest;
      EscapedTail(w, rest);
      assert cs + [QChar(w[0], true)] + Mark(w[1..], true) == cs + Mark(w, true);
      LexEscaped(w[1..], rest, cs + [QChar(w[0], true)]);
      if w[0] == '\'' {
        LexQuoteCharacter(tail, cs);
      } else {
        LexSingle(w[0], tail, Single, cs);
      }
    }
  }

  lemma LexSafeChar(c: char, rest: string, word: Option<seq<QChar>>)
    requires SafeChar(c)
    ensures Lex([c] + rest, Plain, word) == Lex(rest, Plain, Extend(word, [QChar(c, false)]))
  {
    assert ([c] + rest)[1..] == rest;
  }

  lemma ExtendFirst(word: Option<seq<QChar>>, w: string)
    requires w != ""
    ensures Extend(Extend(word, [QChar(w[0], false)]), Mark(w[1..], false)) == Extend(word, Mark(w, false))
  {
    var first := [QChar(w[0], false)];
    assert Mark(w, false) == first + Mark(w[1..], false);
    if word.Some? {
      assert (word.value + first) + Mark(w[1..], false) == word.value + (first + Mark(w[1..], false));
    }
  }

  /** Safe characters need no quotes to become part of the word. */
  lemma {:induction false} LexSafe(w: string, rest: string, word: Option<seq<QChar>>)
    requires AllSafe(w) && (word.Some? || w != "")
    ensures Lex(w + rest, Plain, word) == Lex(rest, Plain, Extend(word, Mark(w, false)))
  {
    if w == "" {
      assert w + rest == rest && word.value + [] == word.value;
    } else {
      assert w + rest == [w[0]] + (w[1..] + rest);
      LexSafeChar(w[0], w[1..] + rest, word);
      LexSafe(w[1..], rest, Extend(word, [QChar(w[0], false)]));
      ExtendFirst(word, w);
    }
  }

  /** A safe word needs no quotes to be read as one word. */
  lemma LexBareWord(w: string, rest: string)
    requires AllSafe(w) && w != ""
    ensures Lex(w + rest, Plain, None) == Lex(rest, Plain, Some(Mark(w, false)))
  {
    LexSafe(w, rest, None);
  }

  lemma LexOpenSingle(rest: string)
    ensures Lex(['\''] + rest, Plain, None) == Lex(rest, Single, Some([]))
  {
    assert (['\''] + rest)[1..] == rest;
  }

  /** A quoted word is read as one word with the original characters. */
  lemma LexQuote(w: string, rest: string)
    ensures Lex(Quote(w) + rest, Plain, None) == Lex(rest, Plain, Some(Quoted(w)))
  {
    if w == "" {
      assert Quote(w) + rest == ['\''] + (['\''] + rest);
      LexOpenSingle(['\''] + rest);
      LexSingle('\'', rest, Single, []);
    } else if AllSafe(w) {
      LexBareWord(w, rest);
    } else {
      var inner := EscapeQuotes(w) + "'" + rest;
      assert Quote(w) + rest == ['\''] + inner;
      LexOpenSingle(inner);
      LexEscaped(w, rest, []);
      assert [] + Mark(w, true) == Mark(w, true);
    }
  }

  /** The tokens a shell recognises for `words` quoted and joined. */
  function WordTokens(words: seq<string>): (tokens: seq<Token>)
    ensures |tokens| == |words|
    ensures forall i :: 0 <= i < |words| ==> tokens[i] == Word(Quoted(words[i]))
  {
    if words == [] then [] else [Word(Quoted(words[0]))] + WordTokens(words[1..])
  }

  lemma {:induction false} LexQuoteJoin(words: seq<string>)
    ensures Lex(QuoteJoin(words), Plain, None) == Some(WordTokens(words))
  {
    if words != [] {
      QuoteJoinFirst(words);
      if |words| == 1 {
        LexQuote(words[0], "");
      } else {
        LexQuoteJoin(words[1..]);
        LexQuote(words[0], [' '] + QuoteJoin(words[1..]));
        assert ([' '] + QuoteJoin(words[1..]))[1..] == QuoteJoin(words[1..]);
      }
    }
  }

  lemma MoveFirst(before: string, w: string)
    requires w != ""
    ensures before + [w[0]] + w[1..] == before + w
  {
    assert before + [w[0]] + w[1..] == before + ([w[0]] + w[1..]);
    assert [w[0]] + w[1..] == w;
  }

  lemma QuoteJoinFirst(words: seq<string>)
    requires words != []
    ensures QuoteJoin(words) ==
            Quote(words[0]) + (if |words| == 1 then "" else [' '] + QuoteJoin(words[1..]))
  {
    assert QuoteAll(words)[1..] == QuoteAll(words[1..]);
  }

  lemma ScanSingle(c: char, rest: string, mode: ScanMode, before: string)
    requires mode.InSingle? || c == '\''
    ensures Scan([c] + rest, mode, Some(before)) ==
            if mode.Outside? then Scan(rest, InSingle, Some(before))
            else if mode.InDouble? then Scan(rest, InDouble, Some(before + [c]))
            else if c == '\'' then Scan(rest, Outside, Some(before))
            else Scan(rest, InSingle, Some(before + [c]))
  {
    assert ([c] + rest)[1..] == rest;
    assert before + "" == before;
  }

  lemma ScanDouble(rest: string, mode: ScanMode, before: string)
    requires !mode.InSingle?
    ensures Scan(['"'] + rest, mode, Some(before))
         == Scan(rest, if mode.Outside? then InDouble else Outside, Some(before))
  {
    assert (['"'] + rest)[1..] == rest;
    assert before + "" == before;
  }

  lemma ScanQuoteCharacter(rest: string, before: string)
    ensures Scan("'\"'\"'" + rest, InSingle, Some(before)) == Scan(rest, InSingle, Some(before + ['\'']))
  {
    var s1 := ['\''] + rest;
    var s2 := ['"'] + s1;
    var s3 := ['\''] + s2;
    var s4 := ['"'] + s3;
    assert "'\"'\"'" + rest == ['\''] + s4;
    ScanSingle('\'', s4, InSingle, before);
    ScanDouble(s3, Outside, before);
    ScanSingle('\'', s2, InDouble, before);
    ScanDouble(s1, InDouble, before + ['\'']);
    ScanSingle('\'', rest, Outside, before + ['\'']);
  }

  lemma {:induction false} ScanEscaped(w: string, rest: string, before: string)
    ensures Scan(EscapeQuotes(w) + "'" + rest, InSingle, Some(before)) == Scan(rest, Outside, Some(before + w))
  {
    if w == "" {
      assert EscapeQuotes(w) + "'" + rest == ['\''] + rest;
      assert before + w == before;
      ScanSingle('\'', rest, InSingle, before);
    } else {
      var tail := EscapeQuotes(w[1..]) + "'" + rest;
      EscapedTail(w, rest);
      MoveFirst(before, w);
      ScanEscaped(w[1..], rest, before + [w[0]]);
      if w[0] == '\'' {
        ScanQuoteCharacter(tail, before);
      } else {
        ScanSingle(w[0], tail, InSingle, before);
      }
    }
  }

  lemma ScanSafeChar(c: char, rest: string, word: Option<string>)
    requires SafeChar(c)
    ensures Scan([c] + rest, Outside, word) == Scan(rest, Outside, Append(word, [c]))
  {
    assert ([c] + rest)[1..] == rest;
  }

  lemma {:induction false} ScanSafe(w: string, rest: string, before: string)
    requires AllSafe(w)
    ensures Scan(w + rest, Outside, Some(before)) == Scan(rest, Outside, Some(before + w))
  {
    if w == "" {
      assert w + rest == rest;
      assert before + w == before;
    } else {
      assert w + rest == [w[0]] + (w[1..] + rest);
      ScanSafeChar(w[0], w[1..] + rest, Some(before));
      ScanSafe(w[1..], rest, before + [w[0]]);
      MoveFirst(before, w);
    }
  }

  lemma ScanOpenSingle(rest: string)
    ensures Scan(['\''] + rest, Outside, None) == Scan(rest, InSingle, Some(""))
  {
    assert (['\''] + rest)[1..] == rest;
  }

  lemma ScanQuote(w: string, rest: string)
    ensures Scan(Quote(w) + rest, Outside, None) == Scan(rest, Outside, Some(w))
  {
    if w == "" {
      assert Quote(w) + rest == ['\''] + (['\''] + rest);
      ScanOpenSingle(['\''] + rest);
      ScanSingle('\'', rest, InSingle, "");
    } else if AllSafe(w) {
      assert w + rest == [w[0]] + (w[1..] + rest);
      ScanSafeChar(w[0], w[1..] + rest, None);
      ScanSafe(w[1..], rest, [w[0]]);
      assert [w[0]] + w[1..] == w;
    } else {
      var inner := EscapeQuotes(w) + "'" + rest;
      assert Quote(w) + rest == ['\''] + inner;
      ScanOpenSingle(inner);
      ScanEscaped(w, rest, "");
      assert "" + w == w;
    }
  }

  /** Splitting inverts quoting and joining. */
  lemma {:induction false} SplitInvertsQuoteJoin(words: seq<string>)
    ensures SplitWords(QuoteJoin(words)) == Ok(words)
  {
    if words != [] {
      QuoteJoinFirst(words);
      assert [words[0]] + words[1..] == words;
      if |words| == 1 {
        ScanQuote(words[0], "");
      } else {
        SplitInvertsQuoteJoin(words[1..]);
        ScanQuote(words[0], [' '] + QuoteJoin(words[1..]));
        assert ([' '] + QuoteJoin(words[1..]))[1..] == QuoteJoin(words[1..]);
      }
    }
  }
}
