/** What is refused among the words of a command (shared/execution_exec.py): invalid tokens, names on the deny list,
    the agent's own names and the accounts of others. */
module ArgvScreens {
  import opened ArgumentValues
  import opened Text
  import opened TextLaws

  const MAX_ARG_LEN := 512
  const SHELL_OPERATORS := {"|", "||", "&", "&&", ";", ">", ">>", "<", "<<", "`", "$("}

  predicate ValidToken(py: Python, token: string) {
    && (forall i :: 0 <= i < |token| ==> token[i] as int >= 32)
    && |token| <= MAX_ARG_LEN
    && Strip(py.space, token) !in SHELL_OPERATORS
  }

  predicate AllValid(py: Python, tokens: seq<string>) {
    forall i :: 0 <= i < |tokens| ==> ValidToken(py, tokens[i])
  }

  // ---- the screens ----

  /** A bare name on the deny list; paths and options are left alone. */
  predicate BareDenied(py: Python, token: string, deny: set<string>) {
    var t := py.lower(Strip(py.space, token));
    t != "" && '/' !in t && t[0] != '-' && t in deny
  }

  predicate WordSeparator(py: Python, c: char) {
    py.space(c) || c in ";|&()`$<>\"'"
  }

  /** The words between separators, in order; empty words are kept out by the caller. */
  function StrictWords(py: Python, s: string): (words: seq<string>)
    ensures |words| >= 1
  {
    if s == "" then [""]
    else
      var rest := StrictWords(py, s[1..]);
      if WordSeparator(py, s[0]) then [""] + rest else [[s[0]] + rest[0]] + rest[1..]
  }

  function BaseName(py: Python, word: string): string {
    AfterLast(py.lower(Strip(py.space, word)), '/')
  }

  predicate StrictDenied(py: Python, token: string, deny: set<string>) {
    exists i :: 0 <= i < |StrictWords(py, token)| && StrictWords(py, token)[i] != ""
      && BaseName(py, StrictWords(py, token)[i]) in deny
  }

  predicate Denied(py: Python, token: string, deny: set<string>, strict: bool) {
    if strict then StrictDenied(py, token, deny) else BareDenied(py, token, deny)
  }

  function OptionName(token: string): string {
    Split(token, '=')[0]
  }

  /** An option that the template has already fixed for the calling user. */
  predicate IsFixed(template: seq<string>, token: string) {
    OptionName(token) in template && |OptionName(token)| > 1 && OptionName(token)[0] == '-'
  }

  predicate NamesAgent(py: Python, token: string, user: string, selfNames: set<string>) {
    exists name :: name in selfNames && name != "" && Contains(py.lower(token), name) && name != py.lower(user)
  }

  /** `str.split()` */
  function Words(py: Python, s: string): seq<string>
    decreases |s|
  {
    if s == "" then []
    else if py.space(s[0]) then Words(py, s[1..])
    else
      var n := WordLen(py, s);
      [s[..n]] + Words(py, s[n..])
  }

  function AllWords(py: Python, argv: seq<string>): seq<string> {
    if argv == [] then [] else Words(py, argv[0]) + AllWords(py, argv[1..])
  }

  /** Word `i` names, by any of the three spellings, an account other than `me`. */
  predicate NamesOther(py: Python, words: seq<string>, i: nat, me: string, flags: set<string>)
    requires i < |words|
  {
    var word := words[i];
    var low := py.lower(word);
    var head := OptionName(low);
    if |head| < |low| && head in flags then
      low[|head| + 1..] != "" && low[|head| + 1..] != me
    else if low in flags then
      i + 1 < |words| && words[i + 1] != "" && words[i + 1][0] != '-' && py.lower(words[i + 1]) != me
    else
      |low| > 2 && low[0] == '-' && low[1] != '-' && ['-', low[1]] in flags
      && py.lower(if |word| >= 2 then word[2..] else "") != me
  }

  predicate OnlyOwnAccount(py: Python, argv: seq<string>, user: string, flags: set<string>) {
    var words := AllWords(py, argv);
    flags == {} || forall i :: 0 <= i < |words| ==> !NamesOther(py, words, i, py.lower(Strip(py.space, user)), flags)
  }

  // ---- what they refuse, said without them ----

  predicate Operator(s: string) {
    || s == "|" || s == "||" || s == "&" || s == "&&" || s == ";" || s == ">" || s == ">>" || s == "<" || s == "<<"
    || s == "`" || s == "$("
  }

  /** No control character, at most 512 characters, and more than a shell operator. */
  ghost predicate Sound(py: Python, token: string) {
    && (forall i :: 0 <= i < |token| ==> token[i] as int >= 32) && |token| <= 512
    && forall body :: Trims(py.space, token, body) ==> !Operator(body)
  }

  lemma ValidTokenIff(py: Python, token: string)
    ensures ValidToken(py, token) <==> Sound(py, token)
  {
    var body := Strip(py.space, token);
    StripIff(py.space, token, body);
    if ValidToken(py, token) {
      forall other | Trims(py.space, token, other)
        ensures !Operator(other)
      {
        StripIff(py.space, token, other);
      }
    }
  }

  /** The stripped token in lower case is on the list, and is neither a path nor an option. */
  ghost predicate BareOnList(py: Python, token: string, deny: set<string>) {
    exists body :: Trims(py.space, token, body) && PlainName(py.lower(body)) && py.lower(body) in deny
  }

  predicate PlainName(s: string) {
    s != "" && s[0] != '-' && forall i :: 0 <= i < |s| ==> s[i] != '/'
  }

  lemma BareDeniedIff(py: Python, token: string, deny: set<string>)
    ensures BareDenied(py, token, deny) <==> BareOnList(py, token, deny)
  {
    StripIff(py.space, token, Strip(py.space, token));
    if BareOnList(py, token, deny) {
      var body :| Trims(py.space, token, body) && PlainName(py.lower(body)) && py.lower(body) in deny;
      StripIff(py.space, token, body);
    }
  }

  predicate Separates(py: Python, c: char) {
    || py.space(c) || c == ';' || c == '|' || c == '&' || c == '(' || c == ')' || c == '`' || c == '$' || c == '<'
    || c == '>' || c == '\'' || c == '"'
  }

  /** A longest stretch between separators. */
  predicate Piece(py: Python, s: string, p: nat, e: nat) {
    && p < e <= |s| && (forall k :: p <= k < e ==> !Separates(py, s[k]))
    && (p > 0 ==> Separates(py, s[p - 1])) && (e < |s| ==> Separates(py, s[e]))
  }

  /** In lower case and without the directory in front, a word is on the list. */
  ghost predicate WordOnList(py: Python, word: string, deny: set<string>) {
    exists body, name :: Trims(py.space, word, body) && BehindLast(py.lower(body), '/', name) && name in deny
  }

  ghost predicate PieceOnList(py: Python, token: string, deny: set<string>) {
    exists p: nat, e: nat :: Piece(py, token, p, e) && WordOnList(py, token[p..e], deny)
  }

  lemma {:induction false} FirstWord(py: Python, s: string)
    ensures var n := |StrictWords(py, s)[0]|;
            && n <= |s| && StrictWords(py, s)[0] == s[..n] && (forall k :: 0 <= k < n ==> !Separates(py, s[k]))
            && (n < |s| ==> Separates(py, s[n]))
  {
    if s != "" && !WordSeparator(py, s[0]) {
      FirstWord(py, s[1..]);
    }
  }

  lemma MovedPiece(py: Python, s: string, p: nat, e: nat)
    requires s != "" && (p > 0 || Separates(py, s[0])) && Piece(py, s[1..], p, e)
    ensures Piece(py, s, p + 1, e + 1) && s[p + 1..e + 1] == s[1..][p..e]
  {
  }

  lemma WordsBehind(py: Python, s: string, i: nat)
    requires s != "" && i < |StrictWords(py, s)| && i > 0
    ensures var j := if WordSeparator(py, s[0]) then i - 1 else i;
            j < |StrictWords(py, s[1..])| && StrictWords(py, s)[i] == StrictWords(py, s[1..])[j]
  {
  }

  lemma {:induction false} WordIsPiece(py: Python, s: string, i: nat) returns (p: nat, e: nat)
    requires i < |StrictWords(py, s)| && StrictWords(py, s)[i] != ""
    ensures Piece(py, s, p, e) && StrictWords(py, s)[i] == s[p..e] && (i > 0 ==> p > 0)
    decreases |s|
  {
    FirstWord(py, s);
    if i == 0 {
      p, e := 0, |StrictWords(py, s)[0]|;
    } else {
      WordsBehind(py, s, i);
      p, e := WordIsPiece(py, s[1..], if WordSeparator(py, s[0]) then i - 1 else i);
      MovedPiece(py, s, p, e);
      p, e := p + 1, e + 1;
    }
  }

  lemma PieceBehind(py: Python, s: string, p: nat, e: nat)
    requires p > 0 && Piece(py, s, p, e)
    ensures Piece(py, s[1..], p - 1, e - 1) && s[p..e] == s[1..][p - 1..e - 1] && (p == 1 ==> Separates(py, s[0]))
  {
  }

  lemma WordsInFront(py: Python, s: string, j: nat)
    requires s != "" && j < |StrictWords(py, s[1..])| && (j > 0 || Separates(py, s[0]))
    ensures var i := if WordSeparator(py, s[0]) then j + 1 else j;
            i < |StrictWords(py, s)| && StrictWords(py, s)[i] == StrictWords(py, s[1..])[j]
  {
  }

  lemma {:induction false} PieceIsWord(py: Python, s: string, p: nat, e: nat) returns (i: nat)
    requires Piece(py, s, p, e)
    ensures i < |StrictWords(py, s)| && StrictWords(py, s)[i] == s[p..e] && (p > 0 ==> i > 0)
    decreases |s|
  {
    if p == 0 {
      FirstWord(py, s);
      i := 0;
      assert e == |StrictWords(py, s)[0]|;
    } else {
      PieceBehind(py, s, p, e);
      i := PieceIsWord(py, s[1..], p - 1, e - 1);
      WordsInFront(py, s, i);
      i := if WordSeparator(py, s[0]) then i + 1 else i;
    }
  }

  lemma WordOnListIff(py: Python, word: string, deny: set<string>)
    ensures BaseName(py, word) in deny <==> WordOnList(py, word, deny)
  {
    var body := Strip(py.space, word);
    StripIff(py.space, word, body);
    AfterLastIff(py.lower(body), '/', BaseName(py, word));
    if WordOnList(py, word, deny) {
      var other, name :| Trims(py.space, word, other) && BehindLast(py.lower(other), '/', name) && name in deny;
      StripIff(py.space, word, other);
      AfterLastIff(py.lower(body), '/', name);
    }
  }

  lemma StrictDeniedIff(py: Python, token: string, deny: set<string>)
    ensures StrictDenied(py, token, deny) <==> PieceOnList(py, token, deny)
  {
    var words := StrictWords(py, token);
    if StrictDenied(py, token, deny) {
      var i :| 0 <= i < |words| && words[i] != "" && BaseName(py, words[i]) in deny;
      var p, e := WordIsPiece(py, token, i);
      WordOnListIff(py, words[i], deny);
    }
    if PieceOnList(py, token, deny) {
      var p: nat, e: nat :| Piece(py, token, p, e) && WordOnList(py, token[p..e], deny);
      var i := PieceIsWord(py, token, p, e);
      WordOnListIff(py, words[i], deny);
    }
  }

  ghost predicate OnList(py: Python, token: string, deny: set<string>, strict: bool) {
    if strict then PieceOnList(py, token, deny) else BareOnList(py, token, deny)
  }

  lemma DeniedIff(py: Python, token: string, deny: set<string>, strict: bool)
    ensures Denied(py, token, deny, strict) <==> OnList(py, token, deny, strict)
  {
    StrictDeniedIff(py, token, deny);
    BareDeniedIff(py, token, deny);
  }

  // ---- options and accounts ----

  /** `token` is `option`, alone or with a value behind `=`. */
  predicate Spells(token: string, option: string) {
    '=' !in option && (token == option || option + "=" <= token)
  }

  lemma OptionNameIff(token: string, option: string)
    ensures Spells(token, option) <==> option == OptionName(token)
  {
    SplitIff(token, '=', Split(token, '='));
    var parts := Split(token, '=');
    assert parts[0] in parts;
    if |parts| > 1 {
      assert Join(parts, "=") == parts[0] + "=" + Join(parts[1..], "=");
    }
    if Spells(token, option) {
      if token == option {
        SplitPlain(token, '=');
      } else {
        var value := token[|option| + 1..];
        assert token == option + "=" + value;
        SplitFirst(option, value, '=');
      }
    }
  }

  /** The template already holds this option. */
  ghost predicate FixedByTemplate(template: seq<string>, token: string) {
    exists option :: Spells(token, option) && option in template && |option| > 1 && option[0] == '-'
  }

  lemma IsFixedIff(template: seq<string>, token: string)
    ensures IsFixed(template, token) <==> FixedByTemplate(template, token)
  {
    OptionNameIff(token, OptionName(token));
    if FixedByTemplate(template, token) {
      var option :| Spells(token, option) && option in template && |option| > 1 && option[0] == '-';
      OptionNameIff(token, option);
    }
  }

  predicate NoSpace(py: Python, s: string) {
    forall i :: 0 <= i < |s| ==> !py.space(s[i])
  }

  /** White space, a word, and something else behind it. */
  predicate WordAhead(py: Python, s: string, gap: string, word: string, rest: string) {
    && s == gap + word + rest && AllSpace(py.space, gap) && word != "" && NoSpace(py, word)
    && (rest != "" ==> py.space(rest[0]))
  }

  /** The words of the text with white space around them, in their order. */
  ghost predicate Spaced(py: Python, s: string, words: seq<string>)
    decreases |words|
  {
    if words == [] then AllSpace(py.space, s)
    else exists gap, rest :: WordAhead(py, s, gap, words[0], rest) && Spaced(py, rest, words[1..])
  }

  lemma NextWord(py: Python, s: string)
    requires s != "" && !py.space(s[0])
    ensures var n := WordLen(py, s); WordAhead(py, s, "", s[..n], s[n..])
  {
    WordLenIs(py, s);
    var n := WordLen(py, s);
    assert s == "" + s[..n] + s[n..];
  }

  lemma GapBefore(py: Python, s: string, gap: string, word: string, rest: string)
    requires s != "" && py.space(s[0])
    ensures WordAhead(py, s[1..], gap, word, rest) ==> WordAhead(py, s, [s[0]] + gap, word, rest)
    ensures WordAhead(py, s, gap, word, rest) ==> gap != "" && WordAhead(py, s[1..], gap[1..], word, rest)
  {
    assert s == [s[0]] + s[1..];
    if WordAhead(py, s[1..], gap, word, rest) {
      assert s == [s[0]] + gap + word + rest;
    }
    if WordAhead(py, s, gap, word, rest) {
      if gap == "" {
        NoGap(py, s, word, rest);
      } else {
        assert s[1..] == gap[1..] + word + rest;
      }
    }
  }

  lemma NoGap(py: Python, s: string, word: string, rest: string)
    requires WordAhead(py, s, "", word, rest)
    ensures s == word + rest && !py.space(s[0])
  {
    assert "" + word == word;
  }

  /** The characters up to the first white space. */
  predicate WordEnds(py: Python, s: string, n: nat) {
    n <= |s| && (forall k :: 0 <= k < n ==> !py.space(s[k])) && (n < |s| ==> py.space(s[n]))
  }

  lemma WordEndsOnce(py: Python, s: string, n: nat, m: nat)
    requires WordEnds(py, s, n) && WordEnds(py, s, m)
    ensures n == m
  {
  }

  lemma SpaceFirst(py: Python, s: string, gap: string)
    requires gap != "" && AllSpace(py.space, gap) && |gap| <= |s| && s[..|gap|] == gap
    ensures py.space(s[0])
  {
    assert s[0] == gap[0];
  }

  lemma OnlyNextWord(py: Python, s: string, gap: string, word: string, rest: string)
    requires s != "" && !py.space(s[0]) && WordAhead(py, s, gap, word, rest)
    ensures word == s[..WordLen(py, s)] && rest == s[WordLen(py, s)..]
  {
    WordLenIs(py, s);
    if gap != "" {
      SpaceFirst(py, s, gap);
    }
    NoGap(py, s, word, rest);
    assert WordEnds(py, s, |word|);
    WordEndsOnce(py, s, |word|, WordLen(py, s));
  }

  lemma {:induction false} WordsIff(py: Python, s: string, words: seq<string>)
    ensures Spaced(py, s, words) <==> words == Words(py, s)
    decreases |s|
  {
    if s != "" {
      if py.space(s[0]) {
        WordsIff(py, s[1..], words);
        SpaceInFront(py, s, words);
      } else {
        var n := WordLen(py, s);
        NextWord(py, s);
        if words != [] {
          WordsIff(py, s[n..], words[1..]);
          WordInFront(py, s, words);
          assert words == [words[0]] + words[1..];
        }
      }
    } else {
      NoWords(py, words);
    }
  }

  lemma NoWords(py: Python, words: seq<string>)
    ensures Spaced(py, "", words) <==> words == []
  {
    forall gap, word, rest
      ensures !WordAhead(py, "", gap, word, rest)
    {
      if word != "" {
        assert |gap + word + rest| > 0;
      }
    }
  }

  lemma SpaceInFront(py: Python, s: string, words: seq<string>)
    requires s != "" && py.space(s[0])
    ensures Spaced(py, s, words) <==> Spaced(py, s[1..], words)
  {
    if words != [] {
      if Spaced(py, s, words) {
        var gap, rest :| WordAhead(py, s, gap, words[0], rest) && Spaced(py, rest, words[1..]);
        GapBefore(py, s, gap, words[0], rest);
      }
      if Spaced(py, s[1..], words) {
        var gap, rest :| WordAhead(py, s[1..], gap, words[0], rest) && Spaced(py, rest, words[1..]);
        GapBefore(py, s, gap, words[0], rest);
      }
    } else {
      assert s == [s[0]] + s[1..];
    }
  }

  lemma WordInFront(py: Python, s: string, words: seq<string>)
    requires s != "" && !py.space(s[0]) && words != []
    ensures var n := WordLen(py, s);
            Spaced(py, s, words) <==> words[0] == s[..n] && Spaced(py, s[n..], words[1..])
  {
    NextWord(py, s);
    if Spaced(py, s, words) {
      var gap, rest :| WordAhead(py, s, gap, words[0], rest) && Spaced(py, rest, words[1..]);
      OnlyNextWord(py, s, gap, words[0], rest);
    }
  }

  /** The words of all tokens, one token after the other. */
  lemma {:induction false} AllWordsAre(py: Python, a: seq<string>, b: seq<string>, token: string)
    ensures AllWords(py, []) == [] && Spaced(py, token, AllWords(py, [token]))
    ensures AllWords(py, a + b) == AllWords(py, a) + AllWords(py, b)
    decreases |a|
  {
    WordsIff(py, token, Words(py, token));
    assert [token][1..] == [] && Words(py, token) + [] == Words(py, token);
    if a == [] {
      assert a + b == b;
    } else {
      assert (a + b)[1..] == a[1..] + b;
      AllWordsAre(py, a[1..], b, token);
      Associative(Words(py, a[0]), AllWords(py, a[1..]), AllWords(py, b));
    }
  }

  /** The word is an option with its value behind `=`. */
  predicate WithValue(low: string, flags: set<string>, flag: string, value: string) {
    flag in flags && '=' !in flag && low == flag + "=" + value
  }

  ghost predicate HasValue(low: string, flags: set<string>) {
    exists flag, value :: WithValue(low, flags, flag, value)
  }

  /** `--user=other` names an account that is not `me`. */
  ghost predicate OtherBehindSign(low: string, flags: set<string>, me: string) {
    exists flag, value :: WithValue(low, flags, flag, value) && value != "" && value != me
  }

  /** `-u other`: the option and the account are two words. */
  predicate OtherIsNext(py: Python, words: seq<string>, i: nat, me: string) {
    i + 1 < |words| && words[i + 1] != "" && !("-" <= words[i + 1]) && py.lower(words[i + 1]) != me
  }

  /** `-uother`: a short option with the account behind its letter. */
  predicate OtherIsAttached(py: Python, word: string, flags: set<string>, me: string) {
    var low := py.lower(word);
    && |low| > 2 && low[0] == '-' && low[1] != '-' && low[..2] in flags
    && py.lower(if |word| < 2 then "" else word[2..]) != me
  }

  ghost predicate AnothersAccount(py: Python, words: seq<string>, i: nat, me: string, flags: set<string>)
    requires i < |words|
  {
    var low := py.lower(words[i]);
    || OtherBehindSign(low, flags, me)
    || (!HasValue(low, flags) && low in flags && OtherIsNext(py, words, i, me))
    || (!HasValue(low, flags) && low !in flags && OtherIsAttached(py, words[i], flags, me))
  }

  lemma HasValueIff(low: string, flags: set<string>)
    ensures HasValue(low, flags) <==> OptionName(low) in flags && |OptionName(low)| < |low|
    ensures forall flag, value :: WithValue(low, flags, flag, value) ==>
              flag == OptionName(low) && |flag| < |low| && value == low[|flag| + 1..]
  {
    var head := OptionName(low);
    OptionNameIff(low, head);
    forall flag, value | WithValue(low, flags, flag, value)
      ensures flag == head && |flag| < |low| && value == low[|flag| + 1..]
    {
      assert flag + "=" <= low;
      OptionNameIff(low, flag);
    }
    if head in flags && |head| < |low| {
      assert low == head + "=" + low[|head| + 1..];
      assert WithValue(low, flags, head, low[|head| + 1..]);
    }
  }

  lemma NamesOtherIff(py: Python, words: seq<string>, i: nat, me: string, flags: set<string>)
    requires i < |words|
    ensures NamesOther(py, words, i, me, flags) <==> AnothersAccount(py, words, i, me, flags)
  {
    var low := py.lower(words[i]);
    HasValueIff(low, flags);
    if |low| > 2 {
      assert low[..2] == [low[0], low[1]];
    }
    if HasValue(low, flags) {
      var flag, value :| WithValue(low, flags, flag, value);
    }
  }

  /** No word of any token names another account than the caller's. */
  ghost predicate StaysOwn(py: Python, argv: seq<string>, user: string, flags: set<string>) {
    flags == {}
    || exists body :: Trims(py.space, user, body)
                      && forall i :: 0 <= i < |AllWords(py, argv)| ==>
                           !AnothersAccount(py, AllWords(py, argv), i, py.lower(body), flags)
  }

  lemma OnlyOwnIff(py: Python, argv: seq<string>, user: string, flags: set<string>)
    ensures OnlyOwnAccount(py, argv, user, flags) <==> StaysOwn(py, argv, user, flags)
  {
    var words, body := AllWords(py, argv), Strip(py.space, user);
    StripIff(py.space, user, body);
    forall i | 0 <= i < |words|
      ensures NamesOther(py, words, i, py.lower(body), flags) <==> AnothersAccount(py, words, i, py.lower(body), flags)
    {
      NamesOtherIff(py, words, i, py.lower(body), flags);
    }
    if flags != {} && StaysOwn(py, argv, user, flags) {
      var other :| Trims(py.space, user, other)
        && forall i :: 0 <= i < |words| ==> !AnothersAccount(py, words, i, py.lower(other), flags);
      StripIff(py.space, user, other);
    }
  }
}
