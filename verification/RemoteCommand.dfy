/** The command line sent to the remote host and what the shells there make of it (shared/ssh_exec.py). */
module RemoteCommand {
  import opened Text
  import opened PosixShell
  import opened Shlex

  /** The three ways of dropping privileges. */
  datatype DropMode = Runuser | Su | SuLogin

  /** A full match of the account pattern: a lower-case letter or underscore and up to 63 further characters. */
  predicate ValidUser(user: string) {
    && 1 <= |user| <= 64
    && (user[0] == '_' || 'a' <= user[0] <= 'z')
    && forall i :: 1 <= i < |user| ==> 'a' <= user[i] <= 'z' || '0' <= user[i] <= '9' || user[i] in "_.-"
  }

  function Body(user: string, argv: seq<string>, mode: DropMode): string {
    if mode == Runuser then QuoteJoin(["runuser", "-u", user, "--"] + argv)
    else
      var dash := if mode == SuLogin then "- " else "";
      "su " + dash + user + " -c " + Quote(QuoteJoin(argv))
  }

  function WithHomeCwd(body: string, user: string, mode: DropMode): string {
    if mode == SuLogin then body else "cd ~" + user + " 2>/dev/null; " + body
  }

  function RemoteLine(user: string, argv: seq<string>, mode: DropMode): string {
    WithHomeCwd(Body(user, argv, mode), user, mode)
  }

  // ---- what the root shell should run ----

  function RootArgv(user: string, argv: seq<string>, mode: DropMode): seq<string> {
    match mode
    case Runuser => ["runuser", "-u", user, "--"] + argv
    case Su => ["su", user, "-c", QuoteJoin(argv)]
    case SuLogin => ["su", "-", user, "-c", QuoteJoin(argv)]
  }

  /** Change to the user's home directory, complaining to nobody. */
  function CdHome(user: string): Command {
    Command([], [Literal("cd"), Home(user, "")], [Redirection("2", Literal("/dev/null"))])
  }

  // ---- a quoted word is an ordinary word ----

  lemma QuotedIsLiteral(w: string)
    ensures Expand(Quoted(w)) == Literal(w)
  {
    CharsMark(w, w == "" || !AllSafe(w));
    assert !SafeChar('~');
  }

  lemma SimpleArgument(words: seq<string>, at: Command)
    requires at.words != [] && words != []
    ensures Simple(WordTokens(words), at)
         == Simple(WordTokens(words[1..]), at.(words := at.words + [Literal(words[0])]))
  {
    QuotedIsLiteral(words[0]);
    assert WordTokens(words)[1..] == WordTokens(words[1..]);
  }

  lemma RunsFirst(words: seq<string>, before: seq<Arg>)
    requires words != []
    ensures before + [Literal(words[0])] + Runs(words[1..]).words == before + Runs(words).words
  {
  }

  lemma {:induction false} SimpleArguments(words: seq<string>, at: Command)
    requires at.words != []
    ensures Simple(WordTokens(words), at) == Some(at.(words := at.words + Runs(words).words))
  {
    if words == [] {
      assert at.words + Runs(words).words == at.words;
    } else {
      SimpleArgument(words, at);
      SimpleArguments(words[1..], at.(words := at.words + [Literal(words[0])]));
      RunsFirst(words, at.words);
    }
  }

  /** The first word decides whether the line runs as a simple command with all its words. */
  lemma SimpleRuns(words: seq<string>)
    requires words != []
    ensures Simple(WordTokens(words), NOTHING) == Some(Runs(words)) <==>
            !IsAssignment(Quoted(words[0])) && !IsReserved(Quoted(words[0]))
  {
    assert WordTokens(words)[1..] == WordTokens(words[1..]);
    if IsAssignment(Quoted(words[0])) {
      AssignmentFirst(Quoted(words[0]), WordTokens(words));
    } else if !IsReserved(Quoted(words[0])) {
      PlainFirst(words);
    }
  }

  lemma AssignmentFirst(cs: seq<QChar>, tokens: seq<Token>)
    requires tokens != [] && tokens[0] == Word(cs) && IsAssignment(cs)
    ensures var r := Simple(tokens, NOTHING); r.Some? ==> r.value.assignments != []
  {
    SimpleAssigned(tokens[1..], NOTHING.(assignments := [] + [Chars(cs)]));
  }

  lemma SimpleWord(cs: seq<QChar>, tokens: seq<Token>, at: Command)
    requires (!IsAssignment(cs) && !IsReserved(cs)) || at.words != []
    ensures Simple([Word(cs)] + tokens, at) == Simple(tokens, at.(words := at.words + [Expand(cs)]))
  {
    assert ([Word(cs)] + tokens)[1..] == tokens;
  }

  lemma {:induction false} PlainFirst(words: seq<string>)
    requires words != [] && WordTokens(words)[1..] == WordTokens(words[1..])
    requires !IsAssignment(Quoted(words[0])) && !IsReserved(Quoted(words[0]))
    ensures Simple(WordTokens(words), NOTHING) == Some(Runs(words))
  {
    QuotedIsLiteral(words[0]);
    var cs, rest := Quoted(words[0]), WordTokens(words[1..]);
    assert WordTokens(words) == [Word(cs)] + rest;
    SimpleWord(cs, rest, NOTHING);
    SimpleArguments(words[1..], NOTHING.(words := [] + [Expand(cs)]));
    RunsFirst(words, []);
    assert [] + Runs(words).words == Runs(words).words;
  }

  /** Assignments once read stay part of the command. */
  lemma {:induction false} SimpleAssigned(tokens: seq<Token>, at: Command)
    requires at.assignments != []
    ensures var r := Simple(tokens, at); r.Some? ==> r.value.assignments != []
    decreases |tokens|
  {
    if tokens != [] {
      match tokens[0]
      case Semicolon =>
      case Great(fd) =>
        if |tokens| > 1 && tokens[1].Word? {
          SimpleAssigned(tokens[2..],
                         at.(redirections := at.redirections + [Redirection(fd, Expand(tokens[1].cs))]));
        }
      case Word(cs) =>
        SimpleAssigned(tokens[1..], at.(assignments := at.assignments + [Chars(cs)]));
        SimpleAssigned(tokens[1..], at.(words := at.words + [Expand(cs)]));
    }
  }

  lemma {:induction false} NoSemicolon(tokens: seq<Token>)
    requires Semicolon !in tokens
    ensures UpToSemicolon(tokens) == |tokens|
  {
    if tokens != [] {
      NoSemicolon(tokens[1..]);
    }
  }

  lemma ReadQuoteJoin(words: seq<string>)
    requires words != []
    ensures Read(QuoteJoin(words)) == Some([Runs(words)]) <==>
            !IsAssignment(Quoted(words[0])) && !IsReserved(Quoted(words[0]))
  {
    var tokens := WordTokens(words);
    LexQuoteJoin(words);
    NoSemicolon(tokens);
    assert tokens[..|tokens|] == tokens;
    SimpleRuns(words);
  }

  // ---- the user's shell (both `su` modes) ----

  /** An assignment word: a name, an equals sign, and nothing that makes `quote` add quotation marks. */
  predicate AssignmentWord(w: string) {
    AllSafe(w) && exists n :: 0 < n < |w| && w[n] == '=' && NameStart(w[0]) && forall i :: 0 <= i < n ==> NameChar(w[i])
  }

  /** A reserved word that `quote` leaves bare: all of them but `!`, `{` and `}`. */
  predicate ReservedWord(w: string) {
    AllSafe(w) && w in RESERVED
  }

  lemma AssignmentWordIsAssignment(w: string)
    ensures IsAssignment(Quoted(w)) <==> AssignmentWord(w)
  {
    var cs := Quoted(w);
    CharsMark(w, w == "" || !AllSafe(w));
    if IsAssignment(cs) {
      var n :| 0 < n < |cs| && cs[n] == QChar('=', false) && IsName(cs[..n]);
      forall i | 0 <= i < n
        ensures NameChar(w[i])
      {
        assert cs[..n][i] in cs[..n];
      }
      assert cs[..n][0] == cs[0];
      assert w[n] == '=';
    }
    if AssignmentWord(w) {
      var n :| 0 < n < |w| && w[n] == '=' && NameStart(w[0]) && forall i :: 0 <= i < n ==> NameChar(w[i]);
      assert cs[..n][0] == cs[0];
      assert IsName(cs[..n]);
    }
  }

  lemma ReservedWordIsReserved(w: string)
    ensures IsReserved(Quoted(w)) <==> ReservedWord(w)
  {
    CharsMark(w, w == "" || !AllSafe(w));
    if w != "" {
      assert Quoted(w)[0] in Quoted(w);
    }
  }

  /** The user's shell turns the `-c` string back into exactly the original words, and runs them as one command,
      precisely when the first word is neither an assignment nor a reserved word. */
  lemma UserShellRunsArgv(argv: seq<string>)
    requires argv != []
    ensures Read(QuoteJoin(argv)) == Some([Runs(argv)]) <==> !AssignmentWord(argv[0]) && !ReservedWord(argv[0])
  {
    ReadQuoteJoin(argv);
    AssignmentWordIsAssignment(argv[0]);
    ReservedWordIsReserved(argv[0]);
  }

  // ---- the root shell ----

  lemma ValidUserIsSafe(user: string)
    requires ValidUser(user)
    ensures AllSafe(user) && Quote(user) == user && '/' !in user
  {
  }

  lemma SuWords(user: string, inner: string)
    requires AllSafe(user) && user != ""
    ensures QuoteJoin([user, "-c", inner]) == user + ([' '] + ("-c" + ([' '] + Quote(inner))))
  {
    assert AllSafe("-c");
    var last, middle, all := [inner], ["-c", inner], [user, "-c", inner];
    QuoteJoinFirst(all);
    QuoteJoinFirst(middle);
    QuoteJoinFirst(last);
    assert all[1..] == middle && middle[1..] == last;
    assert Quote(inner) + "" == Quote(inner);
  }

  lemma SuLine(user: string, quoted: string)
    ensures user + " -c " + quoted == user + ([' '] + ("-c" + ([' '] + quoted)))
  {
  }

  lemma SuPrefix(dash: string, rest: string, user: string, quoted: string)
    requires rest == user + " -c " + quoted
    ensures "su " + dash + user + " -c " + quoted == "su" + ([' '] + (dash + rest))
  {
    assert "su " + dash + user + " -c " + quoted == "su " + dash + rest;
    assert "su " == "su" + [' '];
  }

  lemma QuoteJoinPrefix(word: string, words: seq<string>)
    requires AllSafe(word) && word != "" && words != []
    ensures QuoteJoin([word] + words) == word + ([' '] + QuoteJoin(words))
  {
    QuoteJoinFirst([word] + words);
    assert ([word] + words)[1..] == words;
  }

  /** In every mode the body is a quoted and joined word list. */
  lemma BodyIsQuoteJoin(user: string, argv: seq<string>, mode: DropMode)
    requires ValidUser(user)
    ensures Body(user, argv, mode) == QuoteJoin(RootArgv(user, argv, mode))
  {
    if mode != Runuser {
      ValidUserIsSafe(user);
      var inner := QuoteJoin(argv);
      SuWords(user, inner);
      SuLine(user, Quote(inner));
      SuBody(user, QuoteJoin([user, "-c", inner]), inner);
      if mode == Su {
        assert ["su"] + [user, "-c", inner] == RootArgv(user, argv, mode);
      } else {
        assert ["su"] + (["-"] + [user, "-c", inner]) == RootArgv(user, argv, mode);
      }
    }
  }

  lemma SuBody(user: string, joined: string, inner: string)
    requires joined == QuoteJoin([user, "-c", inner]) == user + " -c " + Quote(inner)
    ensures "su " + "" + user + " -c " + Quote(inner) == QuoteJoin(["su"] + [user, "-c", inner])
    ensures "su " + "- " + user + " -c " + Quote(inner) == QuoteJoin(["su"] + (["-"] + [user, "-c", inner]))
  {
    var words := [user, "-c", inner];
    BareWord("su");
    BareWord("-");
    QuoteJoinPrefix("su", words);
    QuoteJoinPrefix("-", words);
    QuoteJoinPrefix("su", ["-"] + words);
    SuPrefix("", joined, user, Quote(inner));
    SuPrefix("- ", joined, user, Quote(inner));
    DashSpace(joined);
  }

  lemma BareWord(w: string)
    requires w == "su" || w == "-"
    ensures AllSafe(w) && w != ""
  {
  }

  lemma DashSpace(s: string)
    ensures "" + s == s && "- " + s == "-" + ([' '] + s)
  {
  }

  lemma LexBlank(rest: string, cs: seq<QChar>)
    ensures Lex([' '] + rest, Plain, Some(cs)) == Emit(Word(cs), Lex(rest, Plain, None))
    ensures Lex([' '] + rest, Plain, None) == Lex(rest, Plain, None)
  {
    assert ([' '] + rest)[1..] == rest;
  }

  lemma LexTilde(rest: string)
    ensures Lex(['~'] + rest, Plain, None) == Lex(rest, Plain, Some([QChar('~', false)]))
  {
    assert (['~'] + rest)[1..] == rest;
  }

  lemma LexGreat(rest: string)
    requires rest != "" && rest[0] == '/'
    ensures Lex(['>'] + rest, Plain, Some(Mark("2", false))) == Emit(Great("2"), Lex(rest, Plain, None))
  {
    assert (['>'] + rest)[1..] == rest;
    CharsMark("2", false);
    assert IsIoNumber(Some(Mark("2", false)));
  }

  lemma LexSemicolon(rest: string, cs: seq<QChar>)
    requires rest != "" && rest[0] == ' '
    ensures Lex([';'] + rest, Plain, Some(cs)) == Emit(Word(cs), Emit(Semicolon, Lex(rest, Plain, None)))
  {
    assert ([';'] + rest)[1..] == rest;
  }

  function CdTokens(user: string): seq<Token> {
    [Word(Mark("cd", false)), Word([QChar('~', false)] + Mark(user, false)), Great("2"), Word(Mark("/dev/null", false)),
     Semicolon]
  }

  /** The rest of the line from the redirection on. */
  function Silenced(body: string): string {
    "2" + (['>'] + ("/dev/null" + ([';'] + ([' '] + body))))
  }

  lemma CdLine(user: string, body: string)
    ensures "cd ~" + user + " 2>/dev/null; " + body == "cd" + ([' '] + (['~'] + (user + ([' '] + Silenced(body)))))
  {
    assert "cd ~" == "cd" + ([' '] + ['~']);
    assert " 2>/dev/null; " + body == [' '] + Silenced(body);
    assert "cd ~" + user + " 2>/dev/null; " + body == "cd ~" + (user + (" 2>/dev/null; " + body));
  }

  /** `rest` with tokens put in front, if it can be read at all. */
  function After(tokens: seq<Token>, rest: Option<seq<Token>>): Option<seq<Token>> {
    if rest == None then None else Some(tokens + rest.value)
  }

  lemma AfterEmit(token: Token, tokens: seq<Token>, rest: Option<seq<Token>>)
    ensures Emit(token, rest) == After([token], rest)
    ensures Emit(token, After(tokens, rest)) == After([token] + tokens, rest)
  {
    if rest.Some? {
      assert [token] + (tokens + rest.value) == [token] + tokens + rest.value;
    }
  }

  lemma AfterAfter(a: seq<Token>, b: seq<Token>, rest: Option<seq<Token>>)
    ensures After(a, After(b, rest)) == After(a + b, rest)
  {
    if rest.Some? {
      assert a + (b + rest.value) == a + b + rest.value;
    }
  }

  lemma LexSilenced(body: string)
    ensures Lex(Silenced(body), Plain, None) ==
            After([Great("2"), Word(Mark("/dev/null", false)), Semicolon], Lex(body, Plain, None))
  {
    assert AllSafe("2") && AllSafe("/dev/null");
    var s1 := [' '] + body;
    var s2 := "/dev/null" + ([';'] + s1);
    LexBareWord("2", ['>'] + s2);
    LexGreat(s2);
    LexBareWord("/dev/null", [';'] + s1);
    LexSemicolon(s1, Mark("/dev/null", false));
    LexBlank(body, []);
    var rest, target := Lex(body, Plain, None), Word(Mark("/dev/null", false));
    AfterEmit(Semicolon, [], rest);
    AfterEmit(target, [Semicolon], rest);
    AfterEmit(Great("2"), [target, Semicolon], rest);
    assert [target] + [Semicolon] == [target, Semicolon];
    assert [Great("2")] + [target, Semicolon] == [Great("2"), target, Semicolon];
  }

  lemma LexCd(user: string, rest: string)
    requires ValidUser(user)
    ensures Lex("cd" + ([' '] + (['~'] + (user + ([' '] + rest)))), Plain, None) ==
            After([Word(Mark("cd", false)), Word([QChar('~', false)] + Mark(user, false))], Lex(rest, Plain, None))
  {
    ValidUserIsSafe(user);
    assert AllSafe("cd");
    var s1 := user + ([' '] + rest);
    LexBareWord("cd", [' '] + (['~'] + s1));
    LexBlank(['~'] + s1, Mark("cd", false));
    LexTilde(s1);
    LexSafe(user, [' '] + rest, Some([QChar('~', false)]));
    var home := [QChar('~', false)] + Mark(user, false);
    LexBlank(rest, home);
    AfterEmit(Word(home), [], Lex(rest, Plain, None));
    AfterEmit(Word(Mark("cd", false)), [Word(home)], Lex(rest, Plain, None));
    assert [Word(Mark("cd", false))] + [Word(home)] == [Word(Mark("cd", false)), Word(home)];
  }

  lemma LexCdHome(user: string, body: string)
    requires ValidUser(user)
    ensures Lex("cd ~" + user + " 2>/dev/null; " + body, Plain, None) == After(CdTokens(user), Lex(body, Plain, None))
  {
    CdLine(user, body);
    LexCd(user, Silenced(body));
    LexSilenced(body);
    var cd := [Word(Mark("cd", false)), Word([QChar('~', false)] + Mark(user, false))];
    var silence := [Great("2"), Word(Mark("/dev/null", false)), Semicolon];
    assert cd + silence == CdTokens(user);
    AfterAfter(cd, silence, Lex(body, Plain, None));
  }

  lemma {:induction false} TildePrefixAll(cs: seq<QChar>)
    requires forall q :: q in cs ==> !q.quoted && q.c != '/'
    ensures TildePrefix(cs) == |cs|
  {
    if cs != [] {
      TildePrefixAll(cs[1..]);
    }
  }

  lemma ExpandHome(user: string)
    requires ValidUser(user)
    ensures Expand([QChar('~', false)] + Mark(user, false)) == Home(user, "")
  {
    CharsMark(user, false);
    ValidUserIsSafe(user);
    var cs := [QChar('~', false)] + Mark(user, false);
    forall q | q in cs
      ensures !q.quoted && q.c != '/'
    {
      if q in Mark(user, false) {
        var i :| 0 <= i < |user| && Mark(user, false)[i] == q;
      }
    }
    TildePrefixAll(cs);
    assert cs[1..|cs|] == Mark(user, false) && cs[|cs|..] == [];
  }

  lemma {:induction false} BareWordIsOrdinary(w: string)
    requires AllSafe(w) && '=' !in w && w !in RESERVED
    ensures Expand(Mark(w, false)) == Literal(w)
    ensures !IsAssignment(Mark(w, false)) && !IsReserved(Mark(w, false))
  {
    CharsMark(w, false);
    assert !SafeChar('~');
  }

  lemma SimpleGreat(fd: string, cs: seq<QChar>, at: Command)
    ensures Simple([Great(fd), Word(cs)], at) ==
            Some(at.(redirections := at.redirections + [Redirection(fd, Expand(cs))]))
  {
    assert [Great(fd), Word(cs)][2..] == [];
  }

  /** Two words and a redirection. */
  lemma SimpleRedirected(c1: seq<QChar>, c2: seq<QChar>, fd: string, c3: seq<QChar>)
    requires !IsAssignment(c1) && !IsReserved(c1)
    ensures Simple([Word(c1)] + ([Word(c2)] + [Great(fd), Word(c3)]), NOTHING) ==
            Some(Command([], [Expand(c1), Expand(c2)], [Redirection(fd, Expand(c3))]))
  {
    var at1 := NOTHING.(words := [] + [Expand(c1)]);
    var at2 := at1.(words := at1.words + [Expand(c2)]);
    SimpleWord(c1, [Word(c2)] + [Great(fd), Word(c3)], NOTHING);
    SimpleWord(c2, [Great(fd), Word(c3)], at1);
    SimpleGreat(fd, c3, at2);
    assert at2.words == [Expand(c1), Expand(c2)];
    assert [] + [Redirection(fd, Expand(c3))] == [Redirection(fd, Expand(c3))];
  }

  lemma {:induction false} SimpleHome(cd: string, user: string, fd: string, target: string)
    requires ValidUser(user) && AllSafe(cd) && '=' !in cd && cd !in RESERVED
    requires AllSafe(target) && '=' !in target && target !in RESERVED
    ensures Simple([Word(Mark(cd, false))] + ([Word([QChar('~', false)] + Mark(user, false))]
                                              + [Great(fd), Word(Mark(target, false))]), NOTHING)
         == Some(Command([], [Literal(cd), Home(user, "")], [Redirection(fd, Literal(target))]))
  {
    BareWordIsOrdinary(cd);
    BareWordIsOrdinary(target);
    ExpandHome(user);
    SimpleRedirected(Mark(cd, false), [QChar('~', false)] + Mark(user, false), fd, Mark(target, false));
  }

  lemma CdTokensShape(cd: seq<QChar>, home: seq<QChar>, fd: string, target: seq<QChar>)
    ensures var tokens := [Word(cd), Word(home), Great(fd), Word(target), Semicolon];
            tokens[..4] == [Word(cd)] + ([Word(home)] + [Great(fd), Word(target)])
  {
  }

  lemma SimpleCdHome(user: string)
    requires ValidUser(user)
    ensures Simple(CdTokens(user)[..4], NOTHING) == Some(CdHome(user))
  {
    SimpleHome("cd", user, "2", "/dev/null");
    CdTokensShape(Mark("cd", false), [QChar('~', false)] + Mark(user, false), "2", Mark("/dev/null", false));
  }

  /** The first command ends at the first semicolon, and the rest is read on its own. */
  lemma CommandsInFront(first: seq<Token>, tokens: seq<Token>, n: nat, command: Command, rest: seq<Command>)
    requires 0 < n && n + 1 < |tokens| && UpToSemicolon(tokens) == n && tokens[..n] == first
    requires Simple(first, NOTHING) == Some(command) && Commands(tokens[n + 1..]) == Some(rest)
    ensures Commands(tokens) == Some([command] + rest)
  {
  }

  /** A line that starts with the change of directory runs it and then what follows. */
  lemma ReadCdHome(user: string, words: seq<string>)
    requires ValidUser(user) && words != [] && Read(QuoteJoin(words)) == Some([Runs(words)])
    ensures Read("cd ~" + user + " 2>/dev/null; " + QuoteJoin(words)) == Some([CdHome(user)] + [Runs(words)])
  {
    var line := QuoteJoin(words);
    LexCdHome(user, line);
    LexQuoteJoin(words);
    CommandsCdHome(user, WordTokens(words), [Runs(words)]);
  }

  lemma CommandsCdHome(user: string, tokens: seq<Token>, rest: seq<Command>)
    requires ValidUser(user) && tokens != [] && Commands(tokens) == Some(rest)
    ensures Commands(CdTokens(user) + tokens) == Some([CdHome(user)] + rest)
  {
    var all := CdTokens(user) + tokens;
    CdThenSemicolon(user, tokens);
    SimpleCdHome(user);
    assert all[..4] == CdTokens(user)[..4] && all[5..] == tokens;
    CommandsInFront(CdTokens(user)[..4], all, 4, CdHome(user), rest);
  }

  lemma RootWordIsOrdinary(user: string, argv: seq<string>, mode: DropMode)
    ensures !AssignmentWord(RootArgv(user, argv, mode)[0]) && !ReservedWord(RootArgv(user, argv, mode)[0])
  {
  }

  /** In all three modes the root shell runs exactly the intended program with exactly the intended words; the
      change of directory in front is a command of its own. */
  lemma RootShellRuns(user: string, argv: seq<string>, mode: DropMode)
    requires ValidUser(user)
    ensures Read(RemoteLine(user, argv, mode)) ==
            Some((if mode == SuLogin then [] else [CdHome(user)]) + [Runs(RootArgv(user, argv, mode))])
  {
    var words := RootArgv(user, argv, mode);
    BodyIsQuoteJoin(user, argv, mode);
    RootWordIsOrdinary(user, argv, mode);
    UserShellRunsArgv(words);
    if mode == SuLogin {
      assert [] + [Runs(words)] == [Runs(words)];
    } else {
      ReadCdHome(user, words);
    }
  }

  lemma FirstSemicolon(tokens: seq<Token>, n: nat)
    requires n < |tokens| && tokens[n] == Semicolon && forall i :: 0 <= i < n ==> tokens[i] != Semicolon
    ensures UpToSemicolon(tokens) == n
  {
  }

  lemma CdThenSemicolon(user: string, rest: seq<Token>)
    ensures UpToSemicolon(CdTokens(user) + rest) == 4
  {
    FirstSemicolon(CdTokens(user) + rest, 4);
  }

  /** The words of the one command a root shell runs for the caller: behind a silenced change to the caller's home
      directory, except for the login shell, which goes there by itself. */
  function ForCaller(user: string, mode: DropMode, root: seq<Command>): Option<seq<Arg>> {
    if root == [] then None
    else
      var last := root[|root| - 1];
      var home := Command([], [Literal("cd"), Home(user, "")], [Redirection("2", Literal("/dev/null"))]);
      if last == Command([], last.words, []) && root[..|root| - 1] == (if mode == SuLogin then [] else [home])
      then Some(last.words) else None
  }

  /** What runs as `user` in the end: `runuser` hands its words on literally, `su` hands the `-c` string to the user's
      shell. */
  function HandedOn(user: string, mode: DropMode, words: seq<Arg>): Option<seq<Command>> {
    match mode
    case Runuser =>
      if |words| > 4 && words[..4] == [Literal("runuser"), Literal("-u"), Literal(user), Literal("--")]
      then Some([Command([], words[4..], [])]) else None
    case Su =>
      if |words| == 4 && words[..3] == [Literal("su"), Literal(user), Literal("-c")] && words[3].Literal?
      then Read(words[3].text) else None
    case SuLogin =>
      if |words| == 5 && words[..4] == [Literal("su"), Literal("-"), Literal(user), Literal("-c")] && words[4].Literal?
      then Read(words[4].text) else None
  }

  function Received(user: string, argv: seq<string>, mode: DropMode): Option<seq<Command>> {
    match Read(RemoteLine(user, argv, mode))
    case None => None
    case Some(root) =>
      match ForCaller(user, mode, root)
      case None => None
      case Some(words) => HandedOn(user, mode, words)
  }

  lemma CallerCommand(user: string, argv: seq<string>, mode: DropMode)
    requires ValidUser(user)
    ensures var root := Read(RemoteLine(user, argv, mode));
            root.Some? && ForCaller(user, mode, root.value) == Some(Runs(RootArgv(user, argv, mode)).words)
  {
    RootShellRuns(user, argv, mode);
    var last := [Runs(RootArgv(user, argv, mode))];
    var front := if mode == SuLogin then [] else [CdHome(user)];
    assert (front + last)[..|front|] == front;
  }

  lemma RunsAppend(a: seq<string>, b: seq<string>)
    ensures Runs(a + b).words[..|a|] == Runs(a).words && Runs(a + b).words[|a|..] == Runs(b).words
  {
  }

  lemma RunsFour(a: string, b: string, c: string, d: string)
    ensures Runs([a, b, c, d]).words == [Literal(a), Literal(b), Literal(c), Literal(d)]
  {
  }

  lemma RunuserPasses(user: string, argv: seq<string>)
    requires ValidUser(user) && argv != []
    ensures Received(user, argv, Runuser) == Some([Runs(argv)])
  {
    CallerCommand(user, argv, Runuser);
    RunsAppend(["runuser", "-u", user, "--"], argv);
    RunsFour("runuser", "-u", user, "--");
  }

  lemma SuPasses(user: string, argv: seq<string>, mode: DropMode)
    requires ValidUser(user) && mode != Runuser
    ensures Received(user, argv, mode) == Read(QuoteJoin(argv))
  {
    CallerCommand(user, argv, mode);
    var words := Runs(RootArgv(user, argv, mode)).words;
    if mode == Su {
      assert words == [Literal("su"), Literal(user), Literal("-c"), Literal(QuoteJoin(argv))];
    } else {
      assert words == [Literal("su"), Literal("-"), Literal(user), Literal("-c"), Literal(QuoteJoin(argv))];
    }
  }

  /** End to end: as the caller runs exactly the words of `argv`, in all modes and for all words; in the two `su`
      modes the first word must not be an assignment or a reserved word, and this condition is exact. */
  lemma {:induction false} ArgvArrives(user: string, argv: seq<string>, mode: DropMode)
    requires ValidUser(user) && argv != []
    ensures Received(user, argv, mode) == Some([Runs(argv)]) <==>
            mode == Runuser || (!AssignmentWord(argv[0]) && !ReservedWord(argv[0]))
  {
    if mode == Runuser {
      RunuserPasses(user, argv);
    } else {
      SuPasses(user, argv, mode);
      UserShellRunsArgv(argv);
    }
  }
}
