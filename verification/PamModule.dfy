/** `pam_sm_authenticate`: from a login to the daemon's verdict and back. */
module PamModule {
  import opened Text
  import opened Domain
  import opened Utf8
  import opened Protocol
  import opened Daemon
  import opened Engine
  import S = EngineSpec
  import L = Lockout
  import P = EngineProperties
  import D = DaemonProperties
  import Pam = PamConfig

  datatype PamResult = Success | Ignore | UserUnknown | AuthInfoUnavail | AuthErr | GetUserFailed(code: int)

  /** How far the exchange with the daemon gets. */
  datatype Link = NoSocket | NoConnection | SendFails | ReplyLost(served: bool) | Connected

  /** What the system tells the module: the name `pam_get_user` yields or its error, the
      user id of that account if there is one, the buffers of the configuration file,
      and how the socket calls fare. */
  datatype Login = Login(user: string, error: Option<int>, uid: Option<nat>, buffers: seq<string>, link: Link)

  /** The reply buffer of the module, one byte kept for the final NUL. */
  const REPLY_SIZE := 127

  function AuthWire(user: string): string {
    Wire(Request(AuthRequest, [user]))
  }

  function ReadReply(reply: string): string {
    CString(reply[..Min(|reply|, REPLY_SIZE)])
  }

  /** `resp.find(text) != npos` */
  method FindText(s: string, t: string) returns (found: bool)
    ensures found <==> Contains(s, t)
  {
    found := false;
    for i := 0 to |s| + 1
      invariant found <==> exists k, j :: 0 <= k <= j <= |s| && k < i && s[k..j] == t
    {
      if i + |t| <= |s| && s[i..i + |t|] == t {
        found := true;
      }
    }
  }

  /** The account may use the module: `min_uid` is 0 or not above its user id. */
  predicate UidAdmitted(login: Login) {
    && login.uid.Some?
    && var minUid := Pam.MinUid(Pam.CStrings(login.buffers));
       minUid == 0 || login.uid.value >= minUid
  }

  /** The request reaches the daemon. */
  predicate Asked(login: Login) {
    && login.error.None? && UidAdmitted(login)
    && (login.link.Connected? || (login.link.ReplyLost? && login.link.served))
  }

  method Authenticate(login: Login, engine: AuthEngine, e: Env) returns (code: PamResult)
    requires '\0' !in login.user && |AuthWire(login.user)| < BUFFER_SIZE
    requires forall i :: 0 <= i < |login.buffers| ==> |login.buffers[i]| < NPOS
    modifies engine
    ensures code == Verdict(engine.config, old(engine.Now()), login, e)
    ensures engine.Now() ==
            if Asked(login) then Serve(engine.config, old(engine.Now()), AuthWire(login.user), e).0
            else old(engine.Now())
  {
    if login.error.Some? {
      return GetUserFailed(login.error.value);
    }
    if login.uid.None? {
      return UserUnknown;
    }
    var minUid := Pam.LoadPamConfig(login.buffers);
    if minUid > 0 && login.uid.value < minUid {
      return Ignore;
    }
    if login.link.NoSocket? || login.link.NoConnection? {
      return AuthInfoUnavail;
    }
    var wire := Serialize(Request(AuthRequest, [login.user]));
    if login.link.SendFails? {
      return AuthInfoUnavail;
    }
    if login.link.ReplyLost? {
      if login.link.served {
        var _ := HandleClient(engine, wire, e);
      }
      return AuthErr;
    }
    var reply := HandleClient(engine, wire, e);
    if reply.Some? {
      var accepted := FindText(ReadReply(reply.value), "AUTH_SUCCESS");
      if accepted {
        return Success;
      }
    }
    return AuthErr;
  }

  ghost function Verdict(c: Settings, st: State, login: Login, e: Env): PamResult {
    if login.error.Some? then GetUserFailed(login.error.value)
    else if login.uid.None? then UserUnknown
    else if !UidAdmitted(login) then Ignore
    else
      match login.link
      case NoSocket => AuthInfoUnavail
      case NoConnection => AuthInfoUnavail
      case SendFails => AuthInfoUnavail
      case ReplyLost(_) => AuthErr
      case Connected =>
        if Accepting(Serve(c, st, AuthWire(login.user), e).1) then Success else AuthErr
  }

  /** The module reads a reply as success. */
  ghost predicate Accepting(reply: Option<string>) {
    reply.Some? && Contains(ReadReply(reply.value), "AUTH_SUCCESS")
  }

  lemma DaemonAccepts(c: Settings, st: State, user: string, e: Env)
    requires '\0' !in user && |AuthWire(user)| < BUFFER_SIZE
    ensures Accepting(Serve(c, st, AuthWire(user), e).1) <==>
            Words(user) != [] && S.Accepts(c, st, Words(user)[0], e)
  {
    DaemonVerifiesFirstWord(c, st, user, e);
    OnlySuccessSaysSuccess("ERROR Unknown Command");
    OnlySuccessSaysSuccess("AUTH_SUCCESS");
    OnlySuccessSaysSuccess("AUTH_FAIL");
    OnlySuccessSaysSuccess(EXCEPTION);
  }

  // ---------------------------------------------------------------------------
  // End to end
  // ---------------------------------------------------------------------------

  lemma NoSuccessIn(s: string)
    requires |s| < |"AUTH_SUCCESS"| || 'A' !in s
    ensures !Contains(s, "AUTH_SUCCESS")
  {
    forall i, j | 0 <= i <= j <= |s|
      ensures s[i..j] != "AUTH_SUCCESS"
    {
      if |s[i..j]| == |"AUTH_SUCCESS"| {
        assert s[i..j][0] == s[i] && s[i] in s;
        assert "AUTH_SUCCESS"[0] == 'A';
      }
    }
  }

  /** Of every reply `handle_client` can give to an authentication request, including
      those of its exception handlers, only the accepting one contains the word the
      module looks for. */
  lemma OnlySuccessSaysSuccess(reply: string)
    requires reply in
             {"AUTH_SUCCESS", "AUTH_FAIL", "ERROR Unknown Command", "ERROR Exception", "ERROR Unknown Exception"}
    ensures Contains(ReadReply(reply), "AUTH_SUCCESS") <==> reply == "AUTH_SUCCESS"
  {
    if reply == "AUTH_SUCCESS" {
      ReadWhole("AUTH_SUCCESS");
      assert "AUTH_SUCCESS"[0..12] == "AUTH_SUCCESS";
    } else if reply == "AUTH_FAIL" {
      ReadWhole("AUTH_FAIL");
      NoSuccessIn("AUTH_FAIL");
    } else if reply == "ERROR Unknown Command" {
      ReadWhole("ERROR Unknown Command");
      NoSuccessIn("ERROR Unknown Command");
    } else if reply == "ERROR Exception" {
      ReadWhole("ERROR Exception");
      NoSuccessIn("ERROR Exception");
    } else {
      ReadWhole("ERROR Unknown Exception");
      NoSuccessIn("ERROR Unknown Exception");
    }
  }

  lemma ReadWhole(reply: string)
    requires '\0' !in reply && |reply| <= REPLY_SIZE
    ensures ReadReply(reply) == reply
  {
    assert reply[..|reply|] == reply;
    CStringWithoutNul(reply);
  }

  /** What the daemon makes of the module's request. */
  lemma AuthWireParsed(user: string)
    requires '\0' !in user && |AuthWire(user)| < BUFFER_SIZE
    ensures Parse(Received(AuthWire(user))) == Request(AuthRequest, Words(user)) && AuthWire(user) != ""
  {
    var wire := AuthWire(user);
    assert Arguments([user]) == " " + user + Arguments([]);
    assert '\0' !in wire;
    ReceivedWhole(wire);
    WordsOfNamedRequest(AuthRequest, user);
    CommandNames(AuthRequest);
  }

  /** The daemon verifies the first word of the name it is sent, if there is one. */
  lemma DaemonVerifiesFirstWord(c: Settings, st: State, user: string, e: Env)
    requires '\0' !in user && |AuthWire(user)| < BUFFER_SIZE
    ensures Serve(c, st, AuthWire(user), e) ==
            if Words(user) == [] then (st, Some("ERROR Unknown Command"))
            else
              var (after, outcome) := S.Verify(c, st, Words(user)[0], e);
              (after, Some(Reply(Succeeded(outcome), "AUTH_SUCCESS", "AUTH_FAIL")))
  {
    AuthWireParsed(user);
  }

  /** For every name that fits one read of the daemon: the module succeeds exactly when the account exists, `min_uid`
      admits it, the daemon could be asked, and the engine accepts the first word of
      the name. */
  lemma EndToEnd(c: Settings, st: State, login: Login, e: Env)
    requires '\0' !in login.user && |AuthWire(login.user)| < BUFFER_SIZE
    ensures Verdict(c, st, login, e) == Success <==>
            && login.error.None? && UidAdmitted(login) && login.link.Connected?
            && Words(login.user) != [] && S.Accepts(c, st, Words(login.user)[0], e)
  {
    DaemonAccepts(c, st, login.user, e);
  }

  /** So the name that is verified is the name that logs in exactly when it is one word. */
  lemma VerifiedNameIsLoginName(user: string)
    ensures Words(user) == [user] <==> IsWord(user)
    ensures Words(user) != [] && Words(user)[0] == user <==> IsWord(user)
  {
    if IsWord(user) {
      WordsOfWord(user, "");
      assert user + "" == user;
    } else if Words(user) != [] {
      assert IsWord(Words(user)[0]);
    }
  }

  /** A name of several words logs in on the face of the first, although the engine
      would never accept the name itself. */
  lemma FirstWordLogsIn(c: Settings, st: State, login: Login, first: string, rest: string, e: Env)
    requires login.user == first + rest && IsWord(first) && rest != "" && rest[0] in SPACES
    requires '\0' !in login.user && |login.user| <= 1000
    requires login.error.None? && login.link.Connected?
    ensures Verdict(c, st, login, e) == Success <==> UidAdmitted(login) && S.Accepts(c, st, first, e)
    ensures !S.Accepts(c, st, login.user, e)
  {
    ShortRequest(AuthRequest, login.user, "");
    WordsOfWord(first, rest);
    EndToEnd(c, st, login, e);
    SpacedNameRejected(c, st, login.user, |first|, e);
  }

  lemma SpacedNameRejected(c: Settings, st: State, user: string, i: nat, e: Env)
    requires i < |user| && user[i] in SPACES
    ensures !S.Accepts(c, st, user, e)
  {
    assert !NameChar(user[i]);
  }

  lemma AliceSmithLogsIn(c: Settings, st: State, login: Login, e: Env)
    requires login.user == "alice smith" && login.error.None? && login.link.Connected?
    ensures Verdict(c, st, login, e) == Success <==> UidAdmitted(login) && S.Accepts(c, st, "alice", e)
  {
    assert "alice smith" == "alice" + " smith";
    FirstWordLogsIn(c, st, login, "alice", " smith", e);
  }

  lemma EndToEndForWords(c: Settings, st: State, login: Login, e: Env)
    requires IsWord(login.user) && '\0' !in login.user && |AuthWire(login.user)| < BUFFER_SIZE
    requires login.error.None? && login.link.Connected?
    ensures Verdict(c, st, login, e) == Success <==> UidAdmitted(login) && S.Accepts(c, st, login.user, e)
  {
    EndToEnd(c, st, login, e);
    VerifiedNameIsLoginName(login.user);
  }

  lemma ValidNameIsWord(user: string)
    requires ValidUsername(user)
    ensures IsWord(user) && '\0' !in user && |AuthWire(user)| < BUFFER_SIZE
  {
    ShortRequest(AuthRequest, user, "");
  }

  lemma AcceptedLogsIn(c: Settings, st: State, login: Login, e: Env)
    requires login.error.None? && UidAdmitted(login) && login.link.Connected? && S.Accepts(c, st, login.user, e)
    ensures Verdict(c, st, login, e) == Success
  {
    ValidNameIsWord(login.user);
    EndToEndForWords(c, st, login, e);
  }

  /** The replies to ADD_USER and SET_LABEL tell success apart from all else. */
  lemma RepliesDiffer(ok: Outcome<bool>, reason: string)
    ensures Reply(ok, "ENROLL_SUCCESS", "ENROLL_FAIL " + reason) == "ENROLL_SUCCESS" <==> ok == Returned(true)
    ensures Reply(ok, "LABEL_SET", "LABEL_FAIL") == "LABEL_SET" <==> ok == Returned(true)
  {
    assert "ENROLL_SUCCESS"[7] != ("ENROLL_FAIL " + reason)[7] && "ENROLL_SUCCESS"[1] != EXCEPTION[1];
    assert |"LABEL_SET"| != |"LABEL_FAIL"| && |"LABEL_SET"| != |EXCEPTION|;
  }

  lemma EnrollServed(c: Settings, st: State, mid: State, user: string, e: Env)
    requires AllWords([user])
    requires var add := Wire(Request(AddUser, [user]));
             '\0' !in add && |add| < BUFFER_SIZE && Serve(c, st, add, e) == (mid, Some("ENROLL_SUCCESS"))
    ensures S.Enroll(c, st, user, e) == (mid, Returned(true))
  {
    var req := Request(AddUser, [user]);
    ServedAsSent(c, st, req, e);
    assert Dispatch(c, st, req, e) == StateReply(S.Enroll(c, st, user, e), "ENROLL_SUCCESS", "ENROLL_FAIL " + e.reason);
    RepliesDiffer(S.Enroll(c, st, user, e).1, e.reason);
  }

  lemma LabelServed(c: Settings, st: State, after: State, user: string, tag: string, e: Env)
    requires AllWords([user, tag])
    requires var set' := Wire(Request(SetLabel, [user, tag]));
             '\0' !in set' && |set'| < BUFFER_SIZE && Serve(c, st, set', e) == (after, Some("LABEL_SET"))
    ensures S.SetLabel(c, st, user, tag, e) == (after, Returned(true))
  {
    var req := Request(SetLabel, [user, tag]);
    ServedAsSent(c, st, req, e);
    assert req.args[0] == user && req.args[1] == tag;
    assert Dispatch(c, st, req, e) == StateReply(S.SetLabel(c, st, user, tag, e), "LABEL_SET", "LABEL_FAIL");
    RepliesDiffer(S.SetLabel(c, st, user, tag, e).1, "");
  }

  /** From the wire to the login: once the daemon has answered ENROLL_SUCCESS and then
      LABEL_SET, a login of that account succeeds in front of cameras that recognise
      what was enrolled, under every policy. */
  lemma EnrolledUserLogsIn(c: Settings, st: State, mid: State, after: State, login: Login, tag: string,
                           enrolled: Env, tagged: Env, e: Env)
    requires AllWords([login.user, tag]) && '\0' !in login.user && |AuthWire(login.user)| < BUFFER_SIZE
    requires var add := Wire(Request(AddUser, [login.user]));
             '\0' !in add && |add| < BUFFER_SIZE && Serve(c, st, add, enrolled) == (mid, Some("ENROLL_SUCCESS"))
    requires var set' := Wire(Request(SetLabel, [login.user, tag]));
             '\0' !in set' && |set'| < BUFFER_SIZE && Serve(c, mid, set', tagged) == (after, Some("LABEL_SET"))
    requires login.error.None? && UidAdmitted(login) && login.link.Connected?
    requires e.models && c.cameras != [] && !L.Locked(c, st.lockout, login.user, e.gate)
    requires P.SeesEnrolled(c, enrolled, e)
    ensures Verdict(c, after, login, e) == Success
  {
    assert IsWord([login.user, tag][0]);
    EnrollServed(c, st, mid, login.user, enrolled);
    LabelServed(c, mid, after, login.user, tag, tagged);
    P.EnrolmentReachesVerification(c, st, mid, after, login.user, tag, enrolled, tagged, e);
    EndToEndForWords(c, after, login, e);
  }

  /** Nothing stands in the way of a new user: the premises can be met for every valid
      name and sound label. */
  lemma NewUserLogsIn(c: Settings, st: State, login: Login, tag: string, e: Env) returns (mid: State, after: State)
    requires ValidUsername(login.user) && UserFile(c, login.user) !in st.files && D.SoundTag(tag)
    requires P.ReadyToEnrol(c, tag, e) && P.SeesEnrolled(c, e, e) && !L.Locked(c, st.lockout, login.user, e.gate)
    requires login.error.None? && UidAdmitted(login) && login.link.Connected?
    ensures Serve(c, st, Wire(Request(AddUser, [login.user])), e) == (mid, Some("ENROLL_SUCCESS"))
    ensures Serve(c, mid, Wire(Request(SetLabel, [login.user, tag])), e) == (after, Some("LABEL_SET"))
    ensures Verdict(c, after, login, e) == Success
  {
    mid, after := D.NewUserServed(c, st, login.user, tag, e);
    P.EnrolmentReachesVerification(c, st, mid, after, login.user, tag, e, e, e);
    AcceptedLogsIn(c, after, login, e);
  }

  lemma OrdinaryAccountAdmitted(login: Login)
    requires login.buffers == [] && login.uid.Some? && login.uid.value >= 1000
    ensures UidAdmitted(login)
  {
  }

  lemma SoundNames(user: string, tag: string)
    requires user == "alice" && tag == "home"
    ensures ValidUsername(user) && D.SoundTag(tag) && Ascii(tag)
  {
  }

  /** An instance: a fresh daemon, an ordinary account, no configuration, one camera. */
  lemma LoginExample(policy: Policy)
    returns (c: Settings, login: Login, tag: string, mid: State, after: State, e: Env)
    ensures c.policy == policy && c.threshold > 0.0
    ensures login == Login("alice", None, Some(1000), [], Connected) && tag == "home"
    ensures Serve(c, State(map[], map[]), Wire(Request(AddUser, [login.user])), e) == (mid, Some("ENROLL_SUCCESS"))
    ensures Serve(c, mid, Wire(Request(SetLabel, [login.user, tag])), e) == (after, Some("LABEL_SET"))
    ensures Verdict(c, after, login, e) == Success
  {
    var user: string;
    user, tag := "alice", "home";
    SoundNames(user, tag);
    login := Login(user, None, Some(1000), [], Connected);
    OrdinaryAccountAdmitted(login);
    c, e := P.ExampleWorld(policy, ["rgb"], 5);
    mid, after := NewUserLogsIn(c, State(map[], map[]), login, tag, e);
  }
}
