/** The line protocol between the PAM module, the command line and the daemon. */
module Protocol {
  import opened Text

  datatype Command =
    | AuthRequest | AddUser | TrainUser | TestAuth | SetLabel | TrainNew
    | ListEmbeddings | RemoveEmbedding | GetConfig | SetLogLevel | GetLogLevel
    | GetVersion | Unknown

  function CommandToString(cmd: Command): string {
    match cmd
    case AuthRequest => "AUTH_REQUEST"
    case AddUser => "ADD_USER"
    case TrainUser => "TRAIN_USER"
    case TestAuth => "TEST_AUTH"
    case SetLabel => "SET_LABEL"
    case TrainNew => "TRAIN_NEW"
    case ListEmbeddings => "LIST_EMBEDDINGS"
    case RemoveEmbedding => "REMOVE_EMBEDDING"
    case GetConfig => "GET_CONFIG"
    case SetLogLevel => "SET_LOG_LEVEL"
    case GetLogLevel => "GET_LOG_LEVEL"
    case GetVersion => "GET_VERSION"
    case Unknown => "UNKNOWN"
  }

  function StringToCommand(s: string): Command {
    if s == "AUTH_REQUEST" then AuthRequest
    else if s == "ADD_USER" then AddUser
    else if s == "TRAIN_USER" then TrainUser
    else if s == "TEST_AUTH" then TestAuth
    else if s == "SET_LABEL" then SetLabel
    else if s == "TRAIN_NEW" then TrainNew
    else if s == "LIST_EMBEDDINGS" then ListEmbeddings
    else if s == "REMOVE_EMBEDDING" then RemoveEmbedding
    else if s == "GET_CONFIG" then GetConfig
    else if s == "SET_LOG_LEVEL" then SetLogLevel
    else if s == "GET_LOG_LEVEL" then GetLogLevel
    else if s == "GET_VERSION" then GetVersion
    else Unknown
  }

  datatype Request = Request(cmd: Command, args: seq<string>)

  /** What `operator>>` extracts whole: non-empty and free of white space. */
  predicate IsWord(s: string) {
    s != [] && NoneOf(s, SPACES)
  }

  predicate AllWords(ws: seq<string>) {
    forall i :: 0 <= i < |ws| ==> IsWord(ws[i])
  }

  /** Length of the longest prefix of `s` free of white space. */
  function WordLength(s: string): (n: nat)
    ensures n <= |s| && forall i :: 0 <= i < n ==> s[i] !in SPACES
    ensures n < |s| ==> s[n] in SPACES
  {
    if s == [] || s[0] in SPACES then 0 else 1 + WordLength(s[1..])
  }

  /** The white-space separated words of `s`, in order. */
  function Words(s: string): (ws: seq<string>)
    ensures AllWords(ws)
    decreases |s|
  {
    var t := s[Lead(s, SPACES)..];
    if t == [] then []
    else
      var n := WordLength(t);
      assert t[0] == s[Lead(s, SPACES)];
      [t[..n]] + Words(t[n..])
  }

  /** Every argument preceded by one blank. */
  function Arguments(args: seq<string>): string {
    if args == [] then "" else " " + args[0] + Arguments(args[1..])
  }

  function Wire(r: Request): string {
    CommandToString(r.cmd) + Arguments(r.args)
  }

  function Parse(data: string): Request {
    var ws := Words(data);
    if ws == [] then Request(StringToCommand(""), [])
    else Request(StringToCommand(ws[0]), ws[1..])
  }

  lemma {:induction false} ArgumentsAppend(args: seq<string>, a: string)
    ensures Arguments(args + [a]) == Arguments(args) + " " + a
  {
    if args == [] {
      assert Arguments([a][1..]) == "";
      assert " " + a + "" == "" + " " + a;
    } else {
      ArgumentsAppend(args[1..], a);
      assert (args + [a])[1..] == args[1..] + [a];
    }
  }

  /** `Request::serialize` */
  method Serialize(r: Request) returns (out: string)
    ensures out == Wire(r)
  {
    out := CommandToString(r.cmd);
    assert r.args[..0] == [];
    assert out == out + Arguments([]);
    for i := 0 to |r.args|
      invariant out == CommandToString(r.cmd) + Arguments(r.args[..i])
    {
      ArgumentsAppend(r.args[..i], r.args[i]);
      assert r.args[..i + 1] == r.args[..i] + [r.args[i]];
      out := out + " " + r.args[i];
    }
    assert r.args[..|r.args|] == r.args;
  }

  /** The words still to come once `word` has been extracted before `rest`. */
  ghost function Pending(word: string, rest: string): seq<string> {
    if word == "" then [] else [word] + Words(rest)
  }

  /** One `iss >> word`: skips white space, then takes a word if one is left. */
  method Extract(s: string) returns (word: string, rest: string)
    ensures Words(s) == Pending(word, rest)
    ensures word != "" ==> |rest| < |s|
  {
    var t := s[Lead(s, SPACES)..];
    var n := WordLength(t);
    if t != [] {
      assert t[0] == s[Lead(s, SPACES)];
    }
    word, rest := t[..n], t[n..];
  }

  /** `Request::deserialize` */
  method Deserialize(data: string) returns (req: Request)
    ensures req == Parse(data)
  {
    var word, rest := Extract(data);
    req := Request(StringToCommand(word), []);
    ghost var words := Words(data);
    if word != "" {
      assert words[1..] == Words(rest);
      var args := ExtractAll(rest);
      req := req.(args := args);
    }
  }

  /** `while (iss >> arg) req.args.push_back(arg)` */
  method ExtractAll(s: string) returns (args: seq<string>)
    ensures args == Words(s)
  {
    args := [];
    var word, rest := Extract(s);
    while word != ""
      invariant args + Pending(word, rest) == Words(s)
      decreases if word == "" then 0 else 1 + |rest|
    {
      ghost var before := args;
      assert before + ([word] + Words(rest)) == (before + [word]) + Words(rest);
      args := args + [word];
      word, rest := Extract(rest);
    }
  }

  lemma WordLengthIs(s: string, n: nat)
    requires n <= |s| && (forall i :: 0 <= i < n ==> s[i] !in SPACES) && (n < |s| ==> s[n] in SPACES)
    ensures WordLength(s) == n
  {
  }

  lemma {:induction false} WordsOfWord(w: string, tail: string)
    requires IsWord(w)
    requires tail != [] ==> tail[0] in SPACES
    ensures Words(w + tail) == [w] + Words(tail)
  {
    var s := w + tail;
    LeadIs(s, SPACES, 0);
    assert s[0..] == s;
    WordLengthIs(s, |w|);
    assert s[..|w|] == w && s[|w|..] == tail;
  }

  lemma {:induction false} WordsSkipBlank(s: string)
    ensures Words(" " + s) == Words(s)
  {
    var k := Lead(s, SPACES);
    var t := " " + s;
    LeadIs(t, SPACES, k + 1);
    assert t[k + 1..] == s[k..];
  }

  lemma {:induction false} WordsOfArguments(args: seq<string>)
    requires AllWords(args)
    ensures Words(Arguments(args)) == args
  {
    if args != [] {
      WordsOfArguments(args[1..]);
      var tail := Arguments(args[1..]);
      assert Arguments(args) == " " + (args[0] + tail);
      WordsSkipBlank(args[0] + tail);
      WordsOfWord(args[0], tail);
      assert args == [args[0]] + args[1..];
    }
  }

  /** Every command name is one word and reads back as its command. */
  lemma CommandNames(cmd: Command)
    ensures IsWord(CommandToString(cmd)) && StringToCommand(CommandToString(cmd)) == cmd
  {
    NamesAreWords(cmd);
    NamesReadBack(cmd);
  }

  lemma NamesAreWords(cmd: Command)
    ensures IsWord(CommandToString(cmd))
  {
  }

  lemma NamesReadBack(cmd: Command)
    ensures StringToCommand(CommandToString(cmd)) == cmd
  {
  }

  /** What the daemon reads from a serialized request with sound arguments. */
  lemma WordsOfWire(r: Request)
    requires AllWords(r.args)
    ensures Words(Wire(r)) == [CommandToString(r.cmd)] + r.args
  {
    CommandNames(r.cmd);
    WordsOfArguments(r.args);
    WordsOfWord(CommandToString(r.cmd), Arguments(r.args));
  }

  lemma ParsedArgumentsAreWords(s: string)
    ensures AllWords(Parse(s).args)
  {
    var ws := Words(s);
    if ws != [] {
      assert forall i :: 0 <= i < |ws| - 1 ==> ws[1..][i] == ws[i + 1];
    }
  }

  /** A request survives the wire exactly when every argument is one word. */
  lemma RoundTrip(r: Request)
    ensures Parse(Wire(r)) == r <==> AllWords(r.args)
  {
    if AllWords(r.args) {
      WordsOfWire(r);
      CommandNames(r.cmd);
    } else {
      ParsedArgumentsAreWords(Wire(r));
    }
  }

  lemma WireInjective(r: Request, q: Request)
    requires AllWords(r.args) && AllWords(q.args)
    requires Wire(r) == Wire(q)
    ensures r == q
  {
    RoundTrip(r);
    RoundTrip(q);
  }

  /** Any text the daemon reads has a normal form that it reads the same way. */
  lemma NormalForm(s: string)
    ensures Parse(Wire(Parse(s))) == Parse(s)
  {
    ParsedArgumentsAreWords(s);
    RoundTrip(Parse(s));
  }

  /** The request for one user is read as that user's first word, whatever the name. */
  lemma WordsOfNamedRequest(cmd: Command, user: string)
    ensures Words(Wire(Request(cmd, [user]))) == [CommandToString(cmd)] + Words(user)
  {
    CommandNames(cmd);
    assert Arguments([user]) == " " + user + Arguments([]);
    assert Arguments([user]) == " " + user;
    WordsOfWord(CommandToString(cmd), " " + user);
    WordsSkipBlank(user);
  }
}
