/** How a POSIX shell reads one command line: token recognition, quoting, tilde prefixes and the parts of a simple
    command (POSIX.1-2017 XCU sections 2.2, 2.3, 2.4, 2.6.1, 2.6.7, 2.7 and 2.9.1).
    A line that would need anything else (expansions, pipes, further operators) is not accepted: `None`. */
module PosixShell {
  import opened Text

  /** A character of a word and whether quoting took away its special meaning. */
  datatype QChar = QChar(c: char, quoted: bool)

  datatype Token =
    | Word(cs: seq<QChar>)
    | Semicolon
    | Great(fd: string)  // `>` with the IO number in front of it, "" for none

  datatype Mode = Plain | Single | Double

  function Mark(s: string, quoted: bool): (cs: seq<QChar>) {
    if s == "" then [] else [QChar(s[0], quoted)] + Mark(s[1..], quoted)
  }

  function Chars(cs: seq<QChar>): string {
    if cs == [] then "" else [cs[0].c] + Chars(cs[1..])
  }

  /** The word read so far is completed, if there is one. */
  function Delimit(word: Option<seq<QChar>>, rest: Option<seq<Token>>): Option<seq<Token>> {
    match word
    case None => rest
    case Some(cs) => Emit(Word(cs), rest)
  }

  function Emit(token: Token, rest: Option<seq<Token>>): Option<seq<Token>> {
    match rest
    case None => None
    case Some(tokens) => Some([token] + tokens)
  }

  function Extend(word: Option<seq<QChar>>, cs: seq<QChar>): Option<seq<QChar>> {
    match word
    case None => Some(cs)
    case Some(before) => Some(before + cs)
  }

  /** Only an unquoted all-digit word in front of `>` is an IO number. */
  predicate IsIoNumber(word: Option<seq<QChar>>) {
    word.Some? && word.value != [] && forall q :: q in word.value ==> !q.quoted && IsDigit(q.c)
  }

  /** Characters that end the accepted fragment when they are met unquoted. */
  predicate Unsupported(c: char, inWord: bool) {
    c in "|&<()$`\n*?[" || (c == '#' && !inWord)
  }

  function Lex(s: string, mode: Mode, word: Option<seq<QChar>>): Option<seq<Token>>
    decreases |s|
  {
    match mode
    case Plain =>
      if s == "" then Delimit(word, Some([]))
      else if s[0] == ' ' || s[0] == '\t' then Delimit(word, Lex(s[1..], Plain, None))
      else if s[0] == '\'' then Lex(s[1..], Single, Extend(word, []))
      else if s[0] == '"' then Lex(s[1..], Double, Extend(word, []))
      else if s[0] == '\\' then
        if |s| == 1 then None
        else if s[1] == '\n' then Lex(s[2..], Plain, word)
        else Lex(s[2..], Plain, Extend(word, [QChar(s[1], true)]))
      else if s[0] == ';' then
        if |s| > 1 && s[1] == ';' then None
        else Delimit(word, Emit(Semicolon, Lex(s[1..], Plain, None)))
      else if s[0] == '>' then
        if |s| > 1 && s[1] in ">&|" then None
        else if IsIoNumber(word) then Emit(Great(Chars(word.value)), Lex(s[1..], Plain, None))
        else Delimit(word, Emit(Great(""), Lex(s[1..], Plain, None)))
      else if Unsupported(s[0], word.Some?) then None
      else Lex(s[1..], Plain, Extend(word, [QChar(s[0], false)]))
    case Single =>
      if s == "" then None
      else if s[0] == '\'' then Lex(s[1..], Plain, word)
      else Lex(s[1..], Single, Extend(word, [QChar(s[0], true)]))
    case Double =>
      if s == "" then None
      else if s[0] == '"' then Lex(s[1..], Plain, word)
      else if s[0] == '$' || s[0] == '`' then None
      else if s[0] == '\\' && |s| > 1 && s[1] in "$`\"\\" then
        Lex(s[2..], Double, Extend(word, [QChar(s[1], true)]))
      else if s[0] == '\\' && |s| > 1 && s[1] == '\n' then Lex(s[2..], Double, word)
      else Lex(s[1..], Double, Extend(word, [QChar(s[0], true)]))
  }

  // ---- words ----

  /** What a word stands for after tilde expansion and quote removal. */
  datatype Arg = Literal(text: string) | Home(user: string, rest: string)

  /** Length of the unquoted stretch at the start of `cs` without a slash. */
  function TildePrefix(cs: seq<QChar>): (n: nat)
    ensures n <= |cs|
  {
    if cs == [] || cs[0].quoted || cs[0].c == '/' then 0 else 1 + TildePrefix(cs[1..])
  }

  function Expand(cs: seq<QChar>): Arg {
    if cs != [] && cs[0] == QChar('~', false) then
      var n := TildePrefix(cs);
      if n < |cs| && cs[n].quoted then Literal(Chars(cs))  // a quoted character: no tilde prefix
      else Home(Chars(cs[1..n]), Chars(cs[n..]))
    else Literal(Chars(cs))
  }

  predicate NameStart(c: char) { 'a' <= c <= 'z' || 'A' <= c <= 'Z' || c == '_' }

  predicate NameChar(c: char) { NameStart(c) || IsDigit(c) }

  /** The characters before the first `=` are unquoted and form a name. */
  predicate IsAssignment(cs: seq<QChar>) {
    exists n :: 0 < n < |cs| && cs[n] == QChar('=', false) && IsName(cs[..n])
  }

  predicate IsName(cs: seq<QChar>) {
    cs != [] && NameStart(cs[0].c) && forall q :: q in cs ==> !q.quoted && NameChar(q.c)
  }

  const RESERVED := {"!", "{", "}", "case", "do", "done", "elif", "else", "esac", "fi", "for", "if", "in", "then",
                     "until", "while"}

  predicate IsReserved(cs: seq<QChar>) {
    (forall q :: q in cs ==> !q.quoted) && Chars(cs) in RESERVED
  }

  // ---- commands ----

  datatype Redirection = Redirection(fd: string, target: Arg)

  datatype Command = Command(assignments: seq<string>, words: seq<Arg>, redirections: seq<Redirection>)

  const NOTHING := Command([], [], [])

  /** The tokens of one simple command; `at` is what was gathered before them. */
  function Simple(tokens: seq<Token>, at: Command): Option<Command> {
    if tokens == [] then Some(at)
    else
      match tokens[0]
      case Semicolon => None
      case Great(fd) =>
        if |tokens| > 1 && tokens[1].Word? then
          Simple(tokens[2..], at.(redirections := at.redirections + [Redirection(fd, Expand(tokens[1].cs))]))
        else None
      case Word(cs) =>
        if at.words == [] && IsAssignment(cs) then
          Simple(tokens[1..], at.(assignments := at.assignments + [Chars(cs)]))
        else if at == NOTHING && IsReserved(cs) then None  // a compound command
        else Simple(tokens[1..], at.(words := at.words + [Expand(cs)]))
  }

  /** The tokens up to the first semicolon. */
  function UpToSemicolon(tokens: seq<Token>): (n: nat)
    ensures n <= |tokens| && (n < |tokens| ==> tokens[n] == Semicolon)
    ensures forall i :: 0 <= i < n ==> tokens[i] != Semicolon
  {
    if tokens == [] || tokens[0] == Semicolon then 0 else 1 + UpToSemicolon(tokens[1..])
  }

  function Commands(tokens: seq<Token>): Option<seq<Command>> {
    var n := UpToSemicolon(tokens);
    if n == 0 then None
    else
      var first := Simple(tokens[..n], NOTHING);
      if first == None then None
      else if n + 1 >= |tokens| then Some([first.value])
      else
        var rest := Commands(tokens[n + 1..]);
        if rest == None then None else Some([first.value] + rest.value)
  }

  /** The simple commands a shell runs, one after the other, when it is given the line `s`. */
  function Read(s: string): Option<seq<Command>> {
    var tokens := Lex(s, Plain, None);
    if tokens == None then None else Commands(tokens.value)
  }

  /** The command that runs exactly the program and arguments `argv`. */
  function Runs(argv: seq<string>): Command {
    Command([], seq(|argv|, i requires 0 <= i < |argv| => Literal(argv[i])), [])
  }

  // ---- basic facts ----

  lemma {:induction false} CharsMark(s: string, quoted: bool)
    ensures Chars(Mark(s, quoted)) == s && |Mark(s, quoted)| == |s|
    ensures forall q :: q in Mark(s, quoted) ==> q.quoted == quoted
    ensures forall i :: 0 <= i < |s| ==> Mark(s, quoted)[i] == QChar(s[i], quoted)
  {
    if s != "" {
      CharsMark(s[1..], quoted);
    }
  }

}
