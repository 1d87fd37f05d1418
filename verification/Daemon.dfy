/** One request of the daemon, and its server loop. */
module Daemon {
  import opened Text
  import opened Domain
  import opened Protocol
  import S = EngineSpec
  import opened Engine

  /** The request buffer of the daemon, in bytes. */
  const BUFFER_SIZE := 1024

  /** What one read delivers of the bytes a client sent, as a C string. */
  function Received(data: string): string {
    CString(data[..Min(|data|, BUFFER_SIZE)])
  }

  /** The buffer holds a NUL, so reading it as a C string is defined. */
  predicate Terminated(data: string) {
    |data| < BUFFER_SIZE || '\0' in data[..BUFFER_SIZE]
  }

  function Blanked(texts: seq<string>): string {
    if texts == [] then "" else Blanked(texts[..|texts| - 1]) + " " + texts[|texts| - 1]
  }

  /** The reply of the handler's `catch` clause. */
  const EXCEPTION := "ERROR Exception"

  function Reply(ok: Outcome<bool>, yes: string, no: string): string {
    if ok.Threw? then EXCEPTION else if ok.value then yes else no
  }

  function StateReply(result: (State, Outcome<bool>), yes: string, no: string): (State, string) {
    (result.0, Reply(result.1, yes, no))
  }

  function Succeeded(outcome: Outcome<S.AuthResult>): Outcome<bool> {
    if outcome.Threw? then Threw else Returned(outcome.value.success)
  }

  function ListReply(listed: Outcome<seq<string>>): string {
    if listed.Threw? then EXCEPTION
    else if listed.value == [] then "No embeddings found"
    else "Labels:" + Blanked(listed.value)
  }

  /** The state after a request and its reply. */
  ghost function Dispatch(c: Settings, st: State, req: Request, e: Env): (State, string) {
    var n := |req.args|;
    var user := if n > 0 then req.args[0] else "";
    var tag := if n > 1 then req.args[1] else "default";
    match req.cmd
    case AuthRequest =>
      if n == 0 then (st, "ERROR Unknown Command")
      else
        var (after, outcome) := S.Verify(c, st, user, e);
        (after, Reply(Succeeded(outcome), "AUTH_SUCCESS", "AUTH_FAIL"))
    case AddUser =>
      if n == 0 then (st, "ERROR Unknown Command")
      else StateReply(S.Enroll(c, st, user, e), "ENROLL_SUCCESS", "ENROLL_FAIL " + e.reason)
    case TrainUser =>
      if n == 0 then (st, "ERROR Unknown Command")
      else StateReply(S.Train(c, st, user, tag, false, e), "TRAIN_SUCCESS", "TRAIN_FAIL")
    case TestAuth =>
      if n == 0 then (st, if S.HardwareOk(c, e) then "HW_OK" else "HW_FAIL")
      else
        var (after, outcome) := S.Verify(c, st, user, e);
        (after, Reply(Succeeded(outcome), "HW_OK | " + "AUTH_SUCCESS", "HW_OK | " + ("AUTH_FAIL: " + e.reason)))
    case SetLabel =>
      if n < 2 then (st, "ERROR Missing user or label")
      else StateReply(S.SetLabel(c, st, user, tag, e), "LABEL_SET", "LABEL_FAIL")
    case TrainNew =>
      if n == 0 then (st, "ERROR Missing user")
      else StateReply(S.Train(c, st, user, tag, true, e), "TRAIN_SUCCESS", "TRAIN_FAIL")
    case ListEmbeddings =>
      (st, if n == 0 then "ERROR Missing user" else ListReply(S.Listed(c, st, user)))
    case RemoveEmbedding =>
      if n < 2 then (st, "ERROR Missing user or label")
      else StateReply(S.Remove(c, st, user, tag), "REMOVED", "REMOVE_FAIL")
    case GetConfig => (st, e.configText)
    case SetLogLevel =>
      (st,
       if n == 0 then "ERROR Unknown Command"
       else if user == "DEBUG" then "LOG_LEVEL_DEBUG"
       else if user == "INFO" then "LOG_LEVEL_INFO"
       else "ERROR Invalid Log Level")
    case GetLogLevel => (st, e.logLevelText)
    case GetVersion => (st, e.versionText)
    case Unknown => (st, "ERROR Unknown Command")
  }

  /** A connection: nothing happens when the client sends nothing. For data that is not
      `Terminated` the code has no such result. */
  ghost function Serve(c: Settings, st: State, data: string, e: Env): (State, Option<string>) {
    if data == "" then (st, None)
    else
      var r := Dispatch(c, st, Parse(Received(data)), e);
      (r.0, Some(r.1))
  }

  /** `handle_client` */
  method HandleClient(engine: AuthEngine, data: string, e: Env) returns (reply: Option<string>)
    requires Terminated(data)
    modifies engine
    ensures (engine.Now(), reply) == Serve(engine.config, old(engine.Now()), data, e)
  {
    if |data| == 0 {
      return None;
    }
    var request := Received(data);
    var req := Deserialize(request);
    var response := Answer(engine, req, e);
    if response.Threw? {
      return Some(EXCEPTION);
    }
    return Some(response.value);
  }

  /** The command switch; it throws when the engine does. */
  method Answer(engine: AuthEngine, req: Request, e: Env) returns (response: Outcome<string>)
    modifies engine
    ensures (engine.Now(), if response.Threw? then EXCEPTION else response.value) ==
            Dispatch(engine.config, old(engine.Now()), req, e)
  {
    response := Returned("ERROR Unknown Command");
    match req.cmd
    case AuthRequest =>
      if |req.args| == 0 {
        return;
      }
      var result :- engine.VerifyUserCore(req.args[0], e);
      response := Returned(if result.success then "AUTH_SUCCESS" else "AUTH_FAIL");
    case AddUser =>
      if |req.args| == 0 {
        return;
      }
      var ok :- engine.EnrollUser(req.args[0], e);
      response := Returned(if ok then "ENROLL_SUCCESS" else "ENROLL_FAIL " + e.reason);
    case TrainUser =>
      if |req.args| == 0 {
        return;
      }
      var tag := if |req.args| > 1 then req.args[1] else "default";
      var ok :- engine.TrainUser(req.args[0], tag, false, e);
      response := Returned(if ok then "TRAIN_SUCCESS" else "TRAIN_FAIL");
    case TestAuth =>
      var user := if |req.args| == 0 then "" else req.args[0];
      if |req.args| != 0 {
        var result :- engine.VerifyUserCore(user, e);
        response := Returned("HW_OK | " + if result.success then "AUTH_SUCCESS" else "AUTH_FAIL: " + e.reason);
      } else {
        var ok := engine.TestCameraAndAuth(e);
        response := Returned(if ok then "HW_OK" else "HW_FAIL");
      }
    case SetLabel =>
      if |req.args| < 2 {
        response := Returned("ERROR Missing user or label");
      } else {
        var ok :- engine.SetLabelOf(req.args[0], req.args[1], e);
        response := Returned(if ok then "LABEL_SET" else "LABEL_FAIL");
      }
    case TrainNew =>
      if |req.args| == 0 {
        response := Returned("ERROR Missing user");
      } else {
        var tag := if |req.args| > 1 then req.args[1] else "default";
        var ok :- engine.TrainUser(req.args[0], tag, true, e);
        response := Returned(if ok then "TRAIN_SUCCESS" else "TRAIN_FAIL");
      }
    case ListEmbeddings =>
      if |req.args| == 0 {
        response := Returned("ERROR Missing user");
      } else {
        var texts :- engine.ListEmbeddings(req.args[0]);
        var listing := RenderListing(texts);
        response := Returned(listing);
      }
    case RemoveEmbedding =>
      if |req.args| < 2 {
        response := Returned("ERROR Missing user or label");
      } else {
        var ok :- engine.RemoveEmbedding(req.args[0], req.args[1]);
        response := Returned(if ok then "REMOVED" else "REMOVE_FAIL");
      }
    case GetConfig =>
      response := Returned(e.configText);
    case SetLogLevel =>
      if |req.args| == 0 {
        return;
      }
      if req.args[0] == "DEBUG" {
        response := Returned("LOG_LEVEL_DEBUG");
      } else if req.args[0] == "INFO" {
        response := Returned("LOG_LEVEL_INFO");
      } else {
        response := Returned("ERROR Invalid Log Level");
      }
    case GetLogLevel =>
      response := Returned(e.logLevelText);
    case GetVersion =>
      response := Returned(e.versionText);
    case Unknown =>
  }

  method RenderListing(texts: seq<string>) returns (response: string)
    ensures response == if texts == [] then "No embeddings found" else "Labels:" + Blanked(texts)
  {
    if |texts| == 0 {
      return "No embeddings found";
    }
    response := "Labels:";
    assert response == "Labels:" + Blanked(texts[..0]);
    for i := 0 to |texts|
      invariant response == "Labels:" + Blanked(texts[..i])
    {
      assert texts[..i + 1][..i] == texts[..i];
      response := response + " " + texts[i];
    }
    assert texts[..|texts|] == texts;
  }

  lemma ReceivedWhole(data: string)
    requires '\0' !in data && |data| < BUFFER_SIZE
    ensures Received(data) == data
  {
    assert data[..|data|] == data;
    CStringWithoutNul(data);
  }

  /** A request of whole words is served as what it says. */
  lemma ServedAsSent(c: Settings, st: State, req: Request, e: Env)
    requires AllWords(req.args) && '\0' !in Wire(req) && |Wire(req)| < BUFFER_SIZE
    ensures Serve(c, st, Wire(req), e).1 == Some(Dispatch(c, st, req, e).1)
    ensures Serve(c, st, Wire(req), e).0 == Dispatch(c, st, req, e).0
  {
    RoundTrip(req);
    ReceivedWhole(Wire(req));
    CommandNames(req.cmd);
  }

  /** Two short words are sent whole. */
  lemma ShortRequest(cmd: Command, user: string, tag: string)
    requires '\0' !in user && '\0' !in tag && |user| + |tag| <= 1000
    ensures '\0' !in Wire(Request(cmd, [user])) && |Wire(Request(cmd, [user]))| < BUFFER_SIZE
    ensures '\0' !in Wire(Request(cmd, [user, tag])) && |Wire(Request(cmd, [user, tag]))| < BUFFER_SIZE
  {
    assert Arguments([user]) == " " + user + Arguments([]);
    assert [user, tag][1..] == [tag];
    assert Arguments([tag]) == " " + tag + Arguments([]);
    assert Arguments([user, tag]) == " " + user + Arguments([tag]);
    assert '\0' !in CommandToString(cmd) && |CommandToString(cmd)| <= 16;
  }

  // ---------------------------------------------------------------------------
  // The server loop
  // ---------------------------------------------------------------------------

  /** One accepted connection: what the client sent, and the world during it. */
  datatype Exchange = Exchange(data: string, env: Env)

  ghost function Run(c: Settings, st: State, xs: seq<Exchange>): State {
    if xs == [] then st
    else
      var x := xs[|xs| - 1];
      Serve(c, Run(c, st, xs[..|xs| - 1]), x.data, x.env).0
  }

  /** The loop of `main`: connections are handled one at a time, each to its end. */
  method ServeAll(engine: AuthEngine, xs: seq<Exchange>)
    requires forall i :: 0 <= i < |xs| ==> Terminated(xs[i].data)
    modifies engine
    ensures engine.Now() == Run(engine.config, old(engine.Now()), xs)
  {
    for i := 0 to |xs|
      invariant engine.Now() == Run(engine.config, old(engine.Now()), xs[..i])
    {
      assert xs[..i + 1][..i] == xs[..i];
      var _ := HandleClient(engine, xs[i].data, xs[i].env);
    }
    assert xs[..|xs|] == xs;
  }
}
