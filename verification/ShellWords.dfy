/** The language `shlex.split` reads, said without its scanner: white space around words, and words of plain, escaped
    and quoted pieces. */
module ShellWords {
  import opened Text
  import opened Shlex

  /** Inside double quotes: a character, or one behind a backslash. */
  datatype Bit = Same(c: char) | Behind(c: char)

  datatype Piece = Bare(c: char) | Escaped(c: char) | Single(text: string) | Double(bits: seq<Bit>)

  predicate Blank(c: char) {
    c == ' ' || c == '\t' || c == '\r' || c == '\n'
  }

  predicate BitFits(bit: Bit) {
    bit.Same? ==> bit.c != '"' && bit.c != '\\'
  }

  predicate Fits(piece: Piece) {
    match piece
    case Bare(c) => !Blank(c) && c != '\'' && c != '"' && c != '\\'
    case Escaped(_) => true
    case Single(text) => '\'' !in text
    case Double(bits) => forall i :: 0 <= i < |bits| ==> BitFits(bits[i])
  }

  function BitsWritten(bits: seq<Bit>): string {
    if bits == [] then "" else (if bits[0].Same? then [bits[0].c] else ['\\', bits[0].c]) + BitsWritten(bits[1..])
  }

  /** A backslash in double quotes goes only in front of `"` and of another one. */
  function BitsMean(bits: seq<Bit>): string {
    if bits == [] then ""
    else (if bits[0].Same? || bits[0].c == '"' || bits[0].c == '\\' then [bits[0].c] else ['\\', bits[0].c])
         + BitsMean(bits[1..])
  }

  function Written(piece: Piece): string {
    match piece
    case Bare(c) => [c]
    case Escaped(c) => ['\\', c]
    case Single(text) => ['\''] + (text + ['\''])
    case Double(bits) => ['"'] + (BitsWritten(bits) + ['"'])
  }

  function Means(piece: Piece): string {
    match piece
    case Bare(c) => [c]
    case Escaped(c) => [c]
    case Single(text) => text
    case Double(bits) => BitsMean(bits)
  }

  function AllWritten(pieces: seq<Piece>): string {
    if pieces == [] then "" else Written(pieces[0]) + AllWritten(pieces[1..])
  }

  function AllMean(pieces: seq<Piece>): string {
    if pieces == [] then "" else Means(pieces[0]) + AllMean(pieces[1..])
  }

  predicate AllFit(pieces: seq<Piece>) {
    forall i :: 0 <= i < |pieces| ==> Fits(pieces[i])
  }

  /** White space, a word of some pieces, and nothing or white space behind it. */
  predicate WordAhead(s: string, gap: string, pieces: seq<Piece>, rest: string, word: string) {
    && s == gap + (AllWritten(pieces) + rest) && (forall i :: 0 <= i < |gap| ==> Blank(gap[i]))
    && pieces != [] && AllFit(pieces) && word == AllMean(pieces) && (rest != "" ==> Blank(rest[0]))
  }

  ghost predicate Reads(s: string, words: seq<string>)
    decreases |words|
  {
    if words == [] then forall i :: 0 <= i < |s| ==> Blank(s[i])
    else exists gap, pieces, rest :: WordAhead(s, gap, pieces, rest, words[0]) && Reads(rest, words[1..])
  }

  // ---- what is written is read ----

  lemma AppendTwice(word: Option<string>, a: string, b: string)
    ensures Append(Append(word, a), b) == Append(word, a + b)
  {
    if word.Some? {
      Associative(word.value, a, b);
    }
  }

  lemma AppendNothing(word: Option<string>)
    requires word.Some?
    ensures Append(word, "") == word
  {
    assert word.value + "" == word.value;
  }

  lemma {:induction false} ScanSingleQuoted(text: string, rest: string, before: string)
    requires '\'' !in text
    ensures Scan(text + ['\''] + rest, InSingle, Some(before)) == Scan(rest, Outside, Some(before + text))
  {
    if text == "" {
      assert text + ['\''] + rest == ['\''] + rest && before + text == before;
      ScanSingle('\'', rest, InSingle, before);
    } else {
      var tail := text[1..] + ['\''] + rest;
      assert text + ['\''] + rest == [text[0]] + tail;
      ScanSingle(text[0], tail, InSingle, before);
      ScanSingleQuoted(text[1..], rest, before + [text[0]]);
      MoveFirst(before, text);
    }
  }

  lemma OneBit(bit: Bit)
    ensures BitsWritten([bit]) == if bit.Same? then [bit.c] else ['\\', bit.c]
    ensures BitsMean([bit]) == if bit.Same? || bit.c == '"' || bit.c == '\\' then [bit.c] else ['\\', bit.c]
  {
    assert [bit][1..] == [];
  }

  lemma ScanBit(bit: Bit, rest: string, before: string)
    requires BitFits(bit)
    ensures Scan(BitsWritten([bit]) + rest, InDouble, Some(before))
         == Scan(rest, InDouble, Some(before + BitsMean([bit])))
  {
    var s := BitsWritten([bit]) + rest;
    OneBit(bit);
    if bit.Same? {
      assert s == [bit.c] + rest && s[1..] == rest;
    } else {
      assert s == ['\\', bit.c] + rest && s[2..] == rest;
    }
  }

  lemma BitsCons(bits: seq<Bit>)
    requires bits != []
    ensures BitsWritten(bits) == BitsWritten([bits[0]]) + BitsWritten(bits[1..])
    ensures BitsMean(bits) == BitsMean([bits[0]]) + BitsMean(bits[1..])
  {
    assert [bits[0]][1..] == [];
  }

  lemma {:induction false} ScanDoubleQuoted(bits: seq<Bit>, rest: string, before: string)
    requires forall i :: 0 <= i < |bits| ==> BitFits(bits[i])
    ensures Scan(BitsWritten(bits) + (['"'] + rest), InDouble, Some(before))
         == Scan(rest, Outside, Some(before + BitsMean(bits)))
  {
    if bits == [] {
      assert BitsWritten(bits) + (['"'] + rest) == ['"'] + rest && before + "" == before;
      ScanDouble(rest, InDouble, before);
    } else {
      var tail := BitsWritten(bits[1..]) + (['"'] + rest);
      BitsCons(bits);
      Associative(BitsWritten([bits[0]]), BitsWritten(bits[1..]), ['"'] + rest);
      ScanBit(bits[0], tail, before);
      ScanDoubleQuoted(bits[1..], rest, before + BitsMean([bits[0]]));
      Associative(before, BitsMean([bits[0]]), BitsMean(bits[1..]));
    }
  }

  lemma OpensQuote(quote: char, rest: string, word: Option<string>)
    requires quote == '\'' || quote == '"'
    ensures Scan([quote] + rest, Outside, word)
         == Scan(rest, if quote == '\'' then InSingle else InDouble, Append(word, ""))
  {
    assert ([quote] + rest)[1..] == rest;
  }

  lemma ScanSingleWord(text: string, rest: string, word: Option<string>)
    requires '\'' !in text
    ensures Scan(Written(Single(text)) + rest, Outside, word) == Scan(rest, Outside, Append(word, text))
  {
    var tail := text + ['\''] + rest;
    assert Written(Single(text)) + rest == ['\''] + tail;
    OpensQuote('\'', tail, word);
    ScanSingleQuoted(text, rest, Append(word, "").value);
    AppendTwice(word, "", text);
    assert "" + text == text;
  }

  lemma ScanDoubleWord(bits: seq<Bit>, rest: string, word: Option<string>)
    requires forall i :: 0 <= i < |bits| ==> BitFits(bits[i])
    ensures Scan(Written(Double(bits)) + rest, Outside, word) == Scan(rest, Outside, Append(word, BitsMean(bits)))
  {
    var tail := BitsWritten(bits) + (['"'] + rest);
    assert Written(Double(bits)) + rest == ['"'] + tail;
    OpensQuote('"', tail, word);
    ScanDoubleQuoted(bits, rest, Append(word, "").value);
    AppendTwice(word, "", BitsMean(bits));
    assert "" + BitsMean(bits) == BitsMean(bits);
  }

  lemma ScanPiece(piece: Piece, rest: string, word: Option<string>)
    requires Fits(piece)
    ensures Scan(Written(piece) + rest, Outside, word) == Scan(rest, Outside, Append(word, Means(piece)))
  {
    match piece
    case Bare(c) => assert ([c] + rest)[1..] == rest;
    case Escaped(c) => assert (['\\', c] + rest)[2..] == rest;
    case Single(text) => ScanSingleWord(text, rest, word);
    case Double(bits) => ScanDoubleWord(bits, rest, word);
  }

  lemma {:induction false} ScanPieces(pieces: seq<Piece>, rest: string, word: Option<string>)
    requires AllFit(pieces) && (pieces != [] || word.Some?)
    ensures Scan(AllWritten(pieces) + rest, Outside, word) == Scan(rest, Outside, Append(word, AllMean(pieces)))
  {
    if pieces == [] {
      AppendNothing(word);
      assert AllWritten(pieces) + rest == rest;
    } else {
      Associative(Written(pieces[0]), AllWritten(pieces[1..]), rest);
      ScanPiece(pieces[0], AllWritten(pieces[1..]) + rest, word);
      ScanPieces(pieces[1..], rest, Append(word, Means(pieces[0])));
      AppendTwice(word, Means(pieces[0]), AllMean(pieces[1..]));
    }
  }

  lemma {:induction false} ScanGap(gap: string, rest: string)
    requires forall i :: 0 <= i < |gap| ==> Blank(gap[i])
    ensures Scan(gap + rest, Outside, None) == Scan(rest, Outside, None)
  {
    if gap == "" {
      assert gap + rest == rest;
    } else {
      assert (gap + rest)[1..] == gap[1..] + rest;
      ScanGap(gap[1..], rest);
    }
  }

  lemma WordEnds(rest: string, word: string)
    requires rest != "" ==> Blank(rest[0])
    ensures Scan(rest, Outside, Some(word)) == Finish(Some(word), Scan(rest, Outside, None))
  {
  }

  lemma ScanWordAhead(s: string, gap: string, pieces: seq<Piece>, rest: string, word: string)
    requires WordAhead(s, gap, pieces, rest, word)
    ensures SplitWords(s) == Finish(Some(word), SplitWords(rest))
  {
    ScanGap(gap, AllWritten(pieces) + rest);
    ScanPieces(pieces, rest, None);
    WordEnds(rest, word);
  }

  lemma {:induction false} ReadsIsSplit(s: string, words: seq<string>)
    requires Reads(s, words)
    ensures SplitWords(s) == Ok(words)
    decreases |words|
  {
    if words == [] {
      assert s + "" == s;
      ScanGap(s, "");
    } else {
      var gap, pieces, rest :| WordAhead(s, gap, pieces, rest, words[0]) && Reads(rest, words[1..]);
      ScanWordAhead(s, gap, pieces, rest, words[0]);
      ReadsIsSplit(rest, words[1..]);
      assert [words[0]] + words[1..] == words;
    }
  }

  // ---- what is read was written ----

  lemma {:induction false} ClosesSingle(s: string, before: string) returns (text: string, rest: string)
    requires Scan(s, InSingle, Some(before)).Ok?
    ensures s == text + ['\''] + rest && '\'' !in text && |rest| < |s|
    decreases |s|
  {
    if s[0] == '\'' {
      text, rest := "", s[1..];
      assert s == "" + ['\''] + rest;
    } else {
      var more: string;
      more, rest := ClosesSingle(s[1..], before + [s[0]]);
      text := [s[0]] + more;
      assert s == [s[0]] + s[1..];
    }
  }

  lemma FirstBit(s: string, before: string) returns (bit: Bit, rest: string)
    requires Scan(s, InDouble, Some(before)).Ok? && s[0] != '"'
    ensures BitFits(bit) && s == BitsWritten([bit]) + rest && |rest| < |s|
  {
    if s[0] == '\\' {
      bit, rest := Behind(s[1]), s[2..];
      assert s == ['\\', s[1]] + rest;
    } else {
      bit, rest := Same(s[0]), s[1..];
      assert s == [s[0]] + rest;
    }
    OneBit(bit);
  }

  lemma {:induction false} ClosesDouble(s: string, before: string) returns (bits: seq<Bit>, rest: string)
    requires Scan(s, InDouble, Some(before)).Ok?
    ensures s == BitsWritten(bits) + (['"'] + rest) && |rest| < |s|
    ensures forall i :: 0 <= i < |bits| ==> BitFits(bits[i])
    decreases |s|
  {
    if s[0] == '"' {
      bits, rest := [], s[1..];
      assert s == "" + (['"'] + rest);
    } else {
      var bit, tail := FirstBit(s, before);
      ScanBit(bit, tail, before);
      var more: seq<Bit>;
      more, rest := ClosesDouble(tail, before + BitsMean([bit]));
      bits := [bit] + more;
      BitsCons(bits);
      assert bits[1..] == more;
      Associative(BitsWritten([bit]), BitsWritten(more), ['"'] + rest);
    }
  }

  lemma FirstPiece(s: string, word: Option<string>) returns (piece: Piece, rest: string)
    requires s != "" && !Blank(s[0]) && Scan(s, Outside, word).Ok?
    ensures Fits(piece) && s == Written(piece) + rest && |rest| < |s|
  {
    if s[0] == '\'' {
      var text;
      text, rest := ClosesSingle(s[1..], Append(word, "").value);
      piece := Single(text);
      assert s == [s[0]] + s[1..];
      assert s == ['\''] + (text + ['\'']) + rest;
    } else if s[0] == '"' {
      var bits;
      bits, rest := ClosesDouble(s[1..], Append(word, "").value);
      piece := Double(bits);
      assert s == [s[0]] + s[1..];
      assert s == ['"'] + (BitsWritten(bits) + ['"']) + rest;
    } else if s[0] == '\\' {
      piece, rest := Escaped(s[1]), s[2..];
      assert s == ['\\', s[1]] + rest;
    } else {
      piece, rest := Bare(s[0]), s[1..];
      assert s == [s[0]] + rest;
    }
  }

  lemma {:induction false} TakesWord(s: string, word: Option<string>) returns (pieces: seq<Piece>, rest: string)
    requires Scan(s, Outside, word).Ok?
    ensures AllFit(pieces) && s == AllWritten(pieces) + rest && (rest != "" ==> Blank(rest[0]))
    ensures s != "" && !Blank(s[0]) ==> pieces != []
    decreases |s|
  {
    if s == "" || Blank(s[0]) {
      pieces, rest := [], s;
      assert s == "" + s;
    } else {
      var piece, tail := FirstPiece(s, word);
      ScanPiece(piece, tail, word);
      var more: seq<Piece>;
      more, rest := TakesWord(tail, Append(word, Means(piece)));
      pieces := [piece] + more;
      assert pieces[1..] == more;
      Associative(Written(piece), AllWritten(more), rest);
    }
  }

  lemma GapInFront(c: char, s: string, words: seq<string>)
    requires Blank(c) && Reads(s, words)
    ensures Reads([c] + s, words)
  {
    if words != [] {
      var gap, pieces, rest :| WordAhead(s, gap, pieces, rest, words[0]) && Reads(rest, words[1..]);
      Associative([c], gap, AllWritten(pieces) + rest);
      assert WordAhead([c] + s, [c] + gap, pieces, rest, words[0]);
    }
  }

  lemma ReadsCons(s: string, gap: string, pieces: seq<Piece>, rest: string, word: string, words: seq<string>)
    requires WordAhead(s, gap, pieces, rest, word) && Reads(rest, words)
    ensures Reads(s, [word] + words)
  {
    var all := [word] + words;
    assert all[1..] == words && all[0] == word;
  }

  lemma {:induction false} SplitIsReads(s: string)
    requires SplitWords(s).Ok?
    ensures Reads(s, SplitWords(s).value)
    decreases |s|
  {
    if s != "" {
      if Blank(s[0]) {
        SplitIsReads(s[1..]);
        GapInFront(s[0], s[1..], SplitWords(s).value);
        assert s == [s[0]] + s[1..];
      } else {
        var pieces, rest := TakesWord(s, None);
        var word := AllMean(pieces);
        assert s == "" + (AllWritten(pieces) + rest);
        assert WordAhead(s, "", pieces, rest, word);
        ScanWordAhead(s, "", pieces, rest, word);
        WrittenIsText(pieces);
        SplitIsReads(rest);
        ReadsCons(s, "", pieces, rest, word, SplitWords(rest).value);
      }
    }
  }

  lemma WrittenIsText(pieces: seq<Piece>)
    requires pieces != []
    ensures AllWritten(pieces) != ""
  {
  }

  /** A line is accepted exactly when it can be written in this way, and the words are what the pieces mean. */
  lemma SplitIff(s: string, words: seq<string>)
    ensures SplitWords(s) == Ok(words) <==> Reads(s, words)
  {
    if SplitWords(s).Ok? {
      SplitIsReads(s);
    }
    if Reads(s, words) {
      ReadsIsSplit(s, words);
    }
  }
}
