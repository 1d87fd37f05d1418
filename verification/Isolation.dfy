/** What happens to one user depends on the requests that name this user, and on no other
    user's requests, files or lockouts. */
module Isolation {
  import opened Domain
  import opened EmbeddingStore
  import opened EngineSpec
  import opened EngineProperties
  import opened Daemon
  import opened DaemonProperties
  import L = Lockout

  /** Two states that hold the same record of a user answer the same about that user. */
  lemma SameRecordSameLookup(c: Settings, st: State, other: State, user: string)
    requires SameRecord(c, st, other, user)
    ensures Lookup(c, other, user) == Lookup(c, st, user)
    ensures Broken(c, other, user) == Broken(c, st, user)
    ensures forall now: nat :: L.Locked(c, other.lockout, user, now) == L.Locked(c, st.lockout, user, now)
  {
    LockedByState(c, st, user);
    LockedByState(c, other, user);
  }

  lemma LockedByState(c: Settings, st: State, user: string)
    ensures forall now: nat :: L.Locked(c, st.lockout, user, now) <==>
                               c.lockoutAttempts > 0 && now < L.StateOf(st.lockout, user).until
  {
  }

  lemma VerifyAgrees(c: Settings, st: State, other: State, user: string, e: Env)
    requires SameRecord(c, st, other, user)
    ensures Verify(c, other, user, e).1 == Verify(c, st, user, e).1
    ensures SameRecord(c, Verify(c, st, user, e).0, Verify(c, other, user, e).0, user)
  {
    SameRecordSameLookup(c, st, other, user);
    assert Verdict(c, other, user, e) == Verdict(c, st, user, e);
  }

  lemma CommitAgrees(c: Settings, st: State, other: State, user: string, doc: Option<UserDoc>)
    requires SameRecord(c, st, other, user)
    ensures Commit(c, other, user, doc).1 == Commit(c, st, user, doc).1
    ensures SameRecord(c, Commit(c, st, user, doc).0, Commit(c, other, user, doc).0, user)
  {
  }

  /** Both results of an operation agree in what was reported and in the user's record. */
  ghost predicate Agree(c: Settings, a: (State, Outcome<bool>), b: (State, Outcome<bool>), user: string) {
    a.1 == b.1 && SameRecord(c, a.0, b.0, user)
  }

  lemma EnrollAgrees(c: Settings, st: State, other: State, user: string, e: Env)
    requires SameRecord(c, st, other, user)
    ensures Agree(c, Enroll(c, st, user, e), Enroll(c, other, user, e), user)
  {
    SameRecordSameLookup(c, st, other, user);
    CommitAgrees(c, st, other, user, EnrolledDoc(Lookup(c, st, user).GetOr(NewDoc(e.wall)), Shots(c, e)));
  }

  lemma LabelAgrees(c: Settings, st: State, other: State, user: string, tag: string, e: Env)
    requires SameRecord(c, st, other, user)
    ensures Agree(c, EngineSpec.SetLabel(c, st, user, tag, e), EngineSpec.SetLabel(c, other, user, tag, e), user)
  {
    SameRecordSameLookup(c, st, other, user);
    var found := Lookup(c, st, user);
    if found.Some? {
      CommitAgrees(c, st, other, user, LabelledDoc(c, found.value, tag, e.wall));
    }
  }

  lemma TrainAgrees(c: Settings, st: State, other: State, user: string, tag: string, createNew: bool, e: Env)
    requires SameRecord(c, st, other, user)
    ensures Agree(c, Train(c, st, user, tag, createNew, e), Train(c, other, user, tag, createNew, e), user)
  {
    SameRecordSameLookup(c, st, other, user);
    var found := Lookup(c, st, user);
    if found.Some? {
      CommitAgrees(c, st, other, user, TrainedDoc(c, found.value, Shots(c, e), tag, createNew, e.wall));
    }
  }

  lemma RemoveAgrees(c: Settings, st: State, other: State, user: string, tag: string)
    requires SameRecord(c, st, other, user)
    ensures Agree(c, Remove(c, st, user, tag), Remove(c, other, user, tag), user)
  {
    SameRecordSameLookup(c, st, other, user);
    var found := Lookup(c, st, user);
    if found.Some? {
      CommitAgrees(c, st, other, user, RemovedDoc(c, found.value, tag));
    }
  }

  lemma DispatchAgrees(c: Settings, st: State, other: State, x: Exchange, user: string)
    requires SameRecord(c, st, other, user) && Names(x, user)
    ensures Dispatch(c, other, RequestOf(x), x.env).1 == Dispatch(c, st, RequestOf(x), x.env).1
    ensures SameRecord(c, Dispatch(c, st, RequestOf(x), x.env).0, Dispatch(c, other, RequestOf(x), x.env).0, user)
  {
    var tag, e := TagOf(x), x.env;
    assert |RequestOf(x).args| > 1 ==> RequestOf(x).args[1] == tag;
    match RequestOf(x).cmd
    case AuthRequest => VerifyAgrees(c, st, other, user, e);
    case TestAuth => VerifyAgrees(c, st, other, user, e);
    case AddUser => EnrollAgrees(c, st, other, user, e);
    case SetLabel => LabelAgrees(c, st, other, user, tag, e);
    case TrainUser => TrainAgrees(c, st, other, user, tag, false, e);
    case TrainNew => TrainAgrees(c, st, other, user, tag, true, e);
    case RemoveEmbedding => RemoveAgrees(c, st, other, user, tag);
    case ListEmbeddings => SameRecordSameLookup(c, st, other, user);
    case _ =>
  }

  /** A request is answered from the record of the user it names alone, and what it makes
      of that record depends on nothing else. */
  lemma ServeAgrees(c: Settings, st: State, other: State, x: Exchange, user: string)
    requires SameRecord(c, st, other, user) && Names(x, user)
    ensures Serve(c, other, x.data, x.env).1 == Serve(c, st, x.data, x.env).1
    ensures SameRecord(c, Serve(c, st, x.data, x.env).0, Serve(c, other, x.data, x.env).0, user)
  {
    DispatchAgrees(c, st, other, x, user);
  }

  /** The exchanges of a run that name the user. */
  function Naming(xs: seq<Exchange>, user: string): seq<Exchange> {
    if xs == [] then []
    else
      var n := |xs| - 1;
      Naming(xs[..n], user) + if Names(xs[n], user) then [xs[n]] else []
  }

  /** After any run a user's record is what the exchanges naming that user alone would have
      made of it. */
  lemma {:induction false} RunSeesOwnExchanges(c: Settings, st: State, xs: seq<Exchange>, user: string)
    ensures SameRecord(c, Run(c, st, Naming(xs, user)), Run(c, st, xs), user)
  {
    if xs != [] {
      var n := |xs| - 1;
      var own := Naming(xs[..n], user);
      RunSeesOwnExchanges(c, st, xs[..n], user);
      if Names(xs[n], user) {
        ServeAgrees(c, Run(c, st, own), Run(c, st, xs[..n]), xs[n], user);
        RunStep(c, st, own, xs[n]);
      } else {
        ServeLeavesOthers(c, Run(c, st, xs[..n]), xs[n], user);
        assert Naming(xs, user) == own;
      }
    }
  }

  /** So neither a later verification of the user nor the reply to a later request for the
      user tells whether other users' requests came in between. */
  lemma OthersAreInvisible(c: Settings, st: State, xs: seq<Exchange>, user: string, e: Env, x: Exchange)
    ensures Verify(c, Run(c, st, xs), user, e).1 == Verify(c, Run(c, st, Naming(xs, user)), user, e).1
    ensures Names(x, user) ==>
              Serve(c, Run(c, st, xs), x.data, x.env).1 == Serve(c, Run(c, st, Naming(xs, user)), x.data, x.env).1
  {
    RunSeesOwnExchanges(c, st, xs, user);
    VerifyAgrees(c, Run(c, st, Naming(xs, user)), Run(c, st, xs), user, e);
    if Names(x, user) {
      ServeAgrees(c, Run(c, st, Naming(xs, user)), Run(c, st, xs), x, user);
    }
  }
}
