/** What a client of the daemon can rely on, from the outside: how its bytes are read, and
    which reply every command gets under which circumstances. */
module Replies {
  import opened Text
  import opened Utf8
  import opened Domain
  import opened Protocol
  import opened EngineSpec
  import opened Daemon
  import opened Requirements
  import opened StoreRequirements

  // ---------------------------------------------------------------------------
  // Reading a request
  // ---------------------------------------------------------------------------

  /** Of what a client sends the daemon reads at most 1024 bytes, up to the first NUL. */
  lemma ReceivedMeaning(data: string)
    ensures var r := Received(data);
            && r <= data && |r| <= 1024 && '\0' !in r
            && (|r| < |data| && |r| < 1024 ==> data[|r|] == '\0')
  {
    var s := data[..Min(|data|, BUFFER_SIZE)];
    assert forall i :: 0 <= i < |s| ==> s[i] == data[i];
    assert CString(s) == data[..Find(s, '\0')];
  }

  /** Blank, tab, line feed, vertical tab, form feed and carriage return. */
  predicate SpaceCode(ch: char) {
    ch as int == 32 || 9 <= ch as int <= 13
  }

  /** `w` stands at position `n` of `s`, behind white space only, and ends there. */
  ghost predicate FirstWord(s: string, n: nat, w: string) {
    && w != "" && n + |w| <= |s| && s[n..n + |w|] == w
    && (forall i :: 0 <= i < n ==> SpaceCode(s[i]))
    && (forall i :: 0 <= i < |w| ==> !SpaceCode(w[i]))
    && (n + |w| < |s| ==> SpaceCode(s[n + |w|]))
  }

  /** `ws` are the stretches of `s` between white space, in order. */
  ghost predicate AreWords(s: string, ws: seq<string>)
    decreases |ws|
  {
    if ws == [] then forall i :: 0 <= i < |s| ==> SpaceCode(s[i])
    else exists n: nat :: FirstWord(s, n, ws[0]) && AreWords(s[n + |ws[0]|..], ws[1..])
  }

  lemma SpacesAre(ch: char)
    ensures ch in SPACES <==> SpaceCode(ch)
  {
  }

  lemma CutWord(s: string) returns (n: nat, w: string, rest: string)
    requires Lead(s, SPACES) < |s|
    ensures FirstWord(s, n, w) && rest == s[n + |w|..] && Words(s) == [w] + Words(rest)
  {
    forall ch
      ensures ch in SPACES <==> SpaceCode(ch)
    {
      SpacesAre(ch);
    }
    n := Lead(s, SPACES);
    var t := s[n..];
    var m := WordLength(t);
    assert t[0] == s[n];
    w, rest := t[..m], t[m..];
    assert s[n..n + m] == w && s[n + m..] == rest;
  }

  lemma AreWordsCons(s: string, n: nat, w: string, ws: seq<string>)
    requires FirstWord(s, n, w) && AreWords(s[n + |w|..], ws)
    ensures AreWords(s, [w] + ws)
  {
    assert ([w] + ws)[0] == w && ([w] + ws)[1..] == ws;
  }

  lemma {:induction false} WordsMeaning(s: string)
    ensures AreWords(s, Words(s))
    decreases |s|
  {
    if Lead(s, SPACES) < |s| {
      var n, w, rest := CutWord(s);
      WordsMeaning(rest);
      AreWordsCons(s, n, w, Words(rest));
    } else {
      assert s[Lead(s, SPACES)..] == [];
      forall i | 0 <= i < |s|
        ensures SpaceCode(s[i])
      {
        SpacesAre(s[i]);
      }
    }
  }

  lemma UnconsWords(s: string, ws: seq<string>) returns (n: nat)
    requires ws != [] && AreWords(s, ws)
    ensures FirstWord(s, n, ws[0]) && AreWords(s[n + |ws[0]|..], ws[1..])
    ensures !SpaceCode(s[n])
  {
    n :| FirstWord(s, n, ws[0]) && AreWords(s[n + |ws[0]|..], ws[1..]);
    assert s[n] == ws[0][0];
  }

  lemma NoWords(s: string, ws: seq<string>, vs: seq<string>)
    requires AreWords(s, ws) && AreWords(s, vs) && ws == []
    ensures vs == []
  {
    if vs != [] {
      var n := UnconsWords(s, vs);
    }
  }

  /** There is only one way to cut a text into words. */
  lemma {:induction false} WordsUnique(s: string, ws: seq<string>, vs: seq<string>)
    requires AreWords(s, ws) && AreWords(s, vs)
    ensures ws == vs
    decreases |ws|
  {
    if ws == [] {
      NoWords(s, ws, vs);
    } else if vs == [] {
      NoWords(s, vs, ws);
    } else {
      var n := UnconsWords(s, ws);
      var m := UnconsWords(s, vs);
      FirstWordUnique(s, n, ws[0], m, vs[0]);
      WordsUnique(s[n + |ws[0]|..], ws[1..], vs[1..]);
      assert ws == [ws[0]] + ws[1..] && vs == [vs[0]] + vs[1..];
    }
  }

  lemma FirstWordUnique(s: string, n: nat, w: string, m: nat, v: string)
    requires FirstWord(s, n, w) && FirstWord(s, m, v)
    ensures n == m && w == v
  {
    assert s[n] == w[0] && s[m] == v[0];
    assert forall i :: 0 <= i < |w| ==> s[n + i] == w[i];
    assert forall i :: 0 <= i < |v| ==> s[m + i] == v[i];
  }

  /** The commands as they are spelled; any other word is no command. */
  lemma CommandTexts(s: string)
    ensures StringToCommand("AUTH_REQUEST") == AuthRequest && StringToCommand("ADD_USER") == AddUser
    ensures StringToCommand("TRAIN_USER") == TrainUser && StringToCommand("TEST_AUTH") == TestAuth
    ensures StringToCommand("SET_LABEL") == Command.SetLabel && StringToCommand("TRAIN_NEW") == TrainNew
    ensures StringToCommand("LIST_EMBEDDINGS") == ListEmbeddings
    ensures StringToCommand("REMOVE_EMBEDDING") == RemoveEmbedding
    ensures StringToCommand("GET_CONFIG") == GetConfig && StringToCommand("SET_LOG_LEVEL") == SetLogLevel
    ensures StringToCommand("GET_LOG_LEVEL") == GetLogLevel && StringToCommand("GET_VERSION") == GetVersion
    ensures StringToCommand(s) == Unknown <==>
            s !in {"AUTH_REQUEST", "ADD_USER", "TRAIN_USER", "TEST_AUTH", "SET_LABEL", "TRAIN_NEW", "LIST_EMBEDDINGS",
                   "REMOVE_EMBEDDING", "GET_CONFIG", "SET_LOG_LEVEL", "GET_LOG_LEVEL", "GET_VERSION"}
  {
  }

  /** A connection: what was read is cut into words, the first names the command and the
      others are its arguments. */
  lemma ServeMeaning(c: Settings, st: State, data: string, words: seq<string>, e: Env)
    requires AreWords(Received(data), words)
    ensures data == "" ==> Serve(c, st, data, e) == (st, None)
    ensures data != "" ==>
              var req := if words == [] then Request(Unknown, []) else Request(StringToCommand(words[0]), words[1..]);
              && Serve(c, st, data, e).0 == Dispatch(c, st, req, e).0
              && Serve(c, st, data, e).1 == Some(Dispatch(c, st, req, e).1)
  {
    WordsMeaning(Received(data));
    WordsUnique(Received(data), words, Words(Received(data)));
  }

  // ---------------------------------------------------------------------------
  // Replies
  // ---------------------------------------------------------------------------

  /** The label of a training request without one. */
  function LabelOr(args: seq<string>): string {
    if |args| >= 2 then args[1] else "default"
  }

  /** The cameras recognise a user who is known, readable and not locked. */
  ghost predicate Recognised(c: Settings, st: State, user: string, e: Env) {
    Reaches(c, st, user, e) && PolicyAccepts(c, DocumentOf(c, st, user), e)
  }

  ghost predicate VerifyThrows(c: Settings, st: State, user: string, e: Env) {
    e.models && HasBrokenFile(c, st, user) && !LockedAt(c, st, user, e.gate)
  }

  lemma SucceededMeaning(c: Settings, st: State, user: string, e: Env)
    ensures var ok := Succeeded(Verify(c, st, user, e).1);
            && (ok.Threw? <==> VerifyThrows(c, st, user, e))
            && (ok == Returned(true) <==> Recognised(c, st, user, e))
  {
    VerifyMeaning(c, st, user, e);
  }

  lemma AuthReply(c: Settings, st: State, args: seq<string>, e: Env)
    ensures var (after, reply) := Dispatch(c, st, Request(AuthRequest, args), e);
            if args == [] then after == st && reply == "ERROR Unknown Command"
            else
              && after == Verify(c, st, args[0], e).0
              && reply == (if VerifyThrows(c, st, args[0], e) then "ERROR Exception"
                           else if Recognised(c, st, args[0], e) then "AUTH_SUCCESS"
                           else "AUTH_FAIL")
  {
    if args != [] {
      SucceededMeaning(c, st, args[0], e);
    }
  }

  lemma TestReply(c: Settings, st: State, args: seq<string>, e: Env)
    ensures var (after, reply) := Dispatch(c, st, Request(TestAuth, args), e);
            if args == [] then
              && after == st
              && reply == if e.models && exists i :: 0 <= i < |c.cameras| && e.frames(i).Some? then "HW_OK"
                          else "HW_FAIL"
            else
              && after == Verify(c, st, args[0], e).0
              && reply == (if VerifyThrows(c, st, args[0], e) then "ERROR Exception"
                           else if Recognised(c, st, args[0], e) then "HW_OK | AUTH_SUCCESS"
                           else "HW_OK | AUTH_FAIL: " + e.reason)
  {
    if args != [] {
      SucceededMeaning(c, st, args[0], e);
      assert "HW_OK | " + "AUTH_SUCCESS" == "HW_OK | AUTH_SUCCESS";
      assert "HW_OK | " + ("AUTH_FAIL: " + e.reason) == "HW_OK | AUTH_FAIL: " + e.reason;
    }
  }

  lemma AddReply(c: Settings, st: State, args: seq<string>, e: Env)
    ensures var (after, reply) := Dispatch(c, st, Request(AddUser, args), e);
            if args == [] then after == st && reply == "ERROR Unknown Command"
            else
              && after == Enroll(c, st, args[0], e).0
              && reply == (if Enrollable(c, st, args[0], e) && Utf8Kinds(c) then "ENROLL_SUCCESS"
                           else if e.models && (HasBrokenFile(c, st, args[0]) || Enrollable(c, st, args[0], e))
                           then "ERROR Exception"
                           else "ENROLL_FAIL " + e.reason)
  {
    if args != [] {
      EnrollOutcome(c, st, args[0], e);
    }
  }

  /** A training that refines, or creates new embeddings. */
  lemma TrainReply(c: Settings, st: State, args: seq<string>, createNew: bool, e: Env)
    ensures var (after, reply) := Dispatch(c, st, Request(if createNew then TrainNew else TrainUser, args), e);
            if args == [] then
              after == st && reply == if createNew then "ERROR Missing user" else "ERROR Unknown Command"
            else
              var user, tag := args[0], LabelOr(args);
              && after == Train(c, st, user, tag, createNew, e).0
              && reply == (if CanTrain(c, st, user, createNew, e) && Utf8Seen(c, tag, e) then "TRAIN_SUCCESS"
                           else if e.models && (HasBrokenFile(c, st, user) || CanTrain(c, st, user, createNew, e))
                           then "ERROR Exception"
                           else "TRAIN_FAIL")
  {
    if args != [] {
      TrainOutcome(c, st, args[0], LabelOr(args), createNew, e);
    }
  }

  lemma LabelReply(c: Settings, st: State, args: seq<string>, e: Env)
    ensures var (after, reply) := Dispatch(c, st, Request(Command.SetLabel, args), e);
            if |args| < 2 then after == st && reply == "ERROR Missing user or label"
            else
              var user, tag := args[0], args[1];
              && after == EngineSpec.SetLabel(c, st, user, tag, e).0
              && reply == (if HasBrokenFile(c, st, user) then "ERROR Exception"
                           else if !CanLabel(c, st, user, tag, e) then "LABEL_FAIL"
                           else if IsUtf8(tag) && IsUtf8(c.modelVersion) then "LABEL_SET"
                           else "ERROR Exception")
  {
    if |args| >= 2 {
      LabelOutcome(c, st, args[0], args[1], e);
    }
  }

  lemma RemoveReply(c: Settings, st: State, args: seq<string>, e: Env)
    ensures var (after, reply) := Dispatch(c, st, Request(RemoveEmbedding, args), e);
            if |args| < 2 then after == st && reply == "ERROR Missing user or label"
            else
              var user, tag := args[0], args[1];
              && after == Remove(c, st, user, tag).0
              && reply == (if HasBrokenFile(c, st, user) then "ERROR Exception"
                           else if HasDocument(c, st, user) && HasEntry(c, DocumentOf(c, st, user), tag) then "REMOVED"
                           else "REMOVE_FAIL")
  {
    if |args| >= 2 {
      RemoveOutcome(c, st, args[0], args[1]);
    }
  }

  /** Each text behind one blank, from the front. */
  function Spaced(texts: seq<string>): string {
    if texts == [] then "" else " " + texts[0] + Spaced(texts[1..])
  }

  lemma {:induction false} SpacedSnoc(texts: seq<string>, t: string)
    ensures Spaced(texts + [t]) == Spaced(texts) + " " + t
  {
    if texts == [] {
      assert [] + [t] == [t] && [t][1..] == [];
      assert " " + t + "" == "" + " " + t;
    } else {
      SpacedSnoc(texts[1..], t);
      assert (texts + [t])[0] == texts[0] && (texts + [t])[1..] == texts[1..] + [t];
    }
  }

  lemma {:induction false} BlankedIsSpaced(texts: seq<string>)
    ensures Blanked(texts) == Spaced(texts)
  {
    if texts != [] {
      var n := |texts| - 1;
      BlankedIsSpaced(texts[..n]);
      SpacedSnoc(texts[..n], texts[n]);
      assert texts == texts[..n] + [texts[n]];
    }
  }

  lemma ListReply(c: Settings, st: State, args: seq<string>, e: Env) returns (texts: seq<string>)
    ensures args != [] && HasDocument(c, st, args[0]) ==> IsListing(c, DocumentOf(c, st, args[0]), texts)
    ensures args != [] && !HasDocument(c, st, args[0]) ==> texts == []
    ensures var (after, reply) := Dispatch(c, st, Request(ListEmbeddings, args), e);
            && after == st
            && reply == if args == [] then "ERROR Missing user"
                        else if HasBrokenFile(c, st, args[0]) then "ERROR Exception"
                        else if texts == [] then "No embeddings found"
                        else "Labels:" + Spaced(texts)
  {
    texts := [];
    if args != [] {
      ListMeaning(c, st, args[0]);
      if Listed(c, st, args[0]).Returned? {
        texts := Listed(c, st, args[0]).value;
        BlankedIsSpaced(texts);
      }
    }
  }

  /** The remaining commands change nothing. */
  lemma OtherReplies(c: Settings, st: State, args: seq<string>, e: Env)
    ensures Dispatch(c, st, Request(GetConfig, args), e) == (st, e.configText)
    ensures Dispatch(c, st, Request(GetVersion, args), e) == (st, e.versionText)
    ensures Dispatch(c, st, Request(GetLogLevel, args), e) == (st, e.logLevelText)
    ensures Dispatch(c, st, Request(Unknown, args), e) == (st, "ERROR Unknown Command")
    ensures Dispatch(c, st, Request(SetLogLevel, args), e) ==
            (st,
             if args == [] then "ERROR Unknown Command"
             else if args[0] == "DEBUG" || args[0] == "INFO" then "LOG_LEVEL_" + args[0]
             else "ERROR Invalid Log Level")
  {
    assert "LOG_LEVEL_" + "DEBUG" == "LOG_LEVEL_DEBUG" && "LOG_LEVEL_" + "INFO" == "LOG_LEVEL_INFO";
  }
}
