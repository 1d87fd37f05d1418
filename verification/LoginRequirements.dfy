/** What a login returns, from the outside: account, configuration, link and cameras. */
module LoginRequirements {
  import opened Text
  import opened Domain
  import opened Protocol
  import opened Daemon
  import opened Requirements
  import opened Replies
  import opened PamModule
  import ConfigLines
  import Pam = PamConfig

  /** The account exists, and the configured `min_uid` does not exclude it: 0 excludes
      nobody, any other value everybody below it. */
  ghost predicate Admits(login: Login, minUid: nat) {
    login.uid.Some? && (minUid == 0 || login.uid.value >= minUid)
  }

  /** `minUid` is what the configuration file of the login means. */
  ghost predicate Configured(login: Login, minUid: nat) {
    Pam.Means(Pam.ClaimsIn(Pam.CStrings(login.buffers)), minUid)
  }

  lemma AdmitsMeaning(login: Login, minUid: nat)
    requires Configured(login, minUid)
    ensures UidAdmitted(login) <==> Admits(login, minUid)
  {
    Pam.MinUidMeaning(Pam.CStrings(login.buffers), minUid);
  }

  /** The daemon accepts the first word of the name. */
  ghost predicate FirstWordRecognised(c: Settings, st: State, user: string, words: seq<string>, e: Env)
    requires AreWords(user, words)
  {
    words != [] && Recognised(c, st, words[0], e)
  }

  lemma FirstWordMeaning(c: Settings, st: State, user: string, words: seq<string>, e: Env)
    requires AreWords(user, words) && '\0' !in user && |AuthWire(user)| < BUFFER_SIZE
    ensures Accepting(Serve(c, st, AuthWire(user), e).1) <==> FirstWordRecognised(c, st, user, words, e)
  {
    WordsMeaning(user);
    WordsUnique(user, words, Words(user));
    DaemonAccepts(c, st, user, e);
    if words != [] {
      VerifyMeaning(c, st, words[0], e);
    }
  }

  /** Every result of a login, with the circumstances under which exactly it comes: the
      error of the name prompt, an unknown account, an account below the configured user
      id, no way to the daemon, a recognised user, or none. */
  lemma LoginMeaning(c: Settings, st: State, login: Login, minUid: nat, words: seq<string>, e: Env)
    requires Configured(login, minUid) && AreWords(login.user, words)
    requires '\0' !in login.user && |AuthWire(login.user)| < BUFFER_SIZE
    ensures var code := Verdict(c, st, login, e);
            var named := login.error.None?;
            var admitted := named && Admits(login, minUid);
            && (login.error.Some? ==> code == GetUserFailed(login.error.value))
            && (code.GetUserFailed? ==> login.error.Some?)
            && (code == UserUnknown <==> named && login.uid.None?)
            && (code == Ignore <==> named && login.uid.Some? && minUid > 0 && login.uid.value < minUid)
            && (code == AuthInfoUnavail <==> admitted && login.link in {NoSocket, NoConnection, SendFails})
            && (code == Success <==>
                admitted && login.link == Connected && FirstWordRecognised(c, st, login.user, words, e))
            && (code == AuthErr <==>
                && admitted && login.link !in {NoSocket, NoConnection, SendFails}
                && !(login.link == Connected && FirstWordRecognised(c, st, login.user, words, e)))
  {
    AdmitsMeaning(login, minUid);
    FirstWordMeaning(c, st, login.user, words, e);
  }

  /** The daemon is asked exactly by an admitted account whose request gets through, also
      when the reply is lost. */
  lemma AskedMeaning(login: Login, minUid: nat)
    requires Configured(login, minUid)
    ensures Asked(login) <==>
            && login.error.None? && Admits(login, minUid)
            && (login.link == Connected || login.link == ReplyLost(true))
  {
    AdmitsMeaning(login, minUid);
  }

  lemma NoConfiguration(login: Login)
    requires login.buffers == []
    ensures Configured(login, 1000)
  {
    var claims := Pam.ClaimsIn(Pam.CStrings(login.buffers));
    assert claims == [];
    assert ConfigLines.DEFAULT_MIN_UID == 1000;
  }

  /** Without any configuration, accounts below 1000 are left to other modules, whatever the
      cameras and the daemon say. */
  lemma SystemAccountsIgnored(c: Settings, st: State, login: Login, e: Env)
    requires login.error.None? && login.uid.Some? && login.buffers == []
    requires '\0' !in login.user && |AuthWire(login.user)| < BUFFER_SIZE
    ensures Verdict(c, st, login, e) == Ignore <==> login.uid.value < 1000
  {
    NoConfiguration(login);
    WordsMeaning(login.user);
    LoginMeaning(c, st, login, 1000, Words(login.user), e);
  }

  lemma RootIsIgnored(c: Settings, st: State, e: Env)
    ensures Verdict(c, st, Login("root", None, Some(0), [], Connected), e) == Ignore
  {
    var login := Login("root", None, Some(0), [], Connected);
    ShortRequest(AuthRequest, login.user, "");
    SystemAccountsIgnored(c, st, login, e);
  }
}
