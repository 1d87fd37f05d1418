/** The cap read as a limit per user: when an exchange, and when a run, keeps all that is
    stored for a user within `max_embeddings`. */
module UserTotals {
  import opened Domain
  import opened EmbeddingStore
  import opened EngineSpec
  import opened EngineProperties
  import opened StoreProperties
  import opened Encoding
  import opened Daemon
  import opened DaemonProperties

  /** What the user has stored under the listed types; nothing without a readable file. */
  function UserTotal(c: Settings, st: State, user: string, kinds: seq<string>): nat {
    var found := Lookup(c, st, user);
    if found.Some? then Total(found.value, kinds) else 0
  }

  // ---------------------------------------------------------------------------
  // One operation
  // ---------------------------------------------------------------------------

  lemma CommitTotal(c: Settings, st: State, user: string, doc: Option<UserDoc>, kinds: seq<string>)
    requires ValidUsername(user)
    ensures UserTotal(c, Commit(c, st, user, doc).0, user, kinds) ==
            if doc.None? then UserTotal(c, st, user, kinds)
            else if Encodable(doc.value) then Total(doc.value, kinds)
            else 0
  {
  }

  /** What the user's total is after a labelling. */
  lemma LabellingTotal(c: Settings, st: State, user: string, tag: string, e: Env, kinds: seq<string>)
    ensures var after := UserTotal(c, EngineSpec.SetLabel(c, st, user, tag, e).0, user, kinds);
            if Labellable(c, st, user, tag) && Utf8Label(c, tag) then
              after == UserTotal(c, st, user, kinds) + LabelGain(c, Lookup(c, st, user).value, tag, kinds)
            else after <= UserTotal(c, st, user, kinds)
  {
    var found := Lookup(c, st, user);
    if found.Some? {
      var after := LabelledDoc(c, found.value, tag, e.wall);
      CommitTotal(c, st, user, after, kinds);
      if after.Some? {
        LabelledEncodable(c, found.value, tag, e.wall);
        LabelledTotal(c, found.value, tag, e.wall, kinds);
      }
    }
  }

  /** And after a training: what it adds depends on whether it creates new embeddings. */
  lemma TrainingTotal(c: Settings, st: State, user: string, tag: string, createNew: bool, e: Env, kinds: seq<string>)
    ensures var after := UserTotal(c, Train(c, st, user, tag, createNew, e).0, user, kinds);
            if Trainable(c, st, user, createNew, e) && Utf8Training(c, tag, e) then
              after == UserTotal(c, st, user, kinds) +
                if createNew then LearnedTotal(Shots(c, e), kinds)
                else RefineGain(Lookup(c, st, user).value, Shots(c, e), tag, kinds)
            else after <= UserTotal(c, st, user, kinds)
  {
    var found := Lookup(c, st, user);
    if e.models && found.Some? {
      var after := TrainedDoc(c, found.value, Shots(c, e), tag, createNew, e.wall);
      CommitTotal(c, st, user, after, kinds);
      if after.Some? {
        TrainedEncodable(c, found.value, Shots(c, e), tag, createNew, e.wall);
        if createNew {
          TrainedNewTotal(c, found.value, Shots(c, e), tag, e.wall, kinds);
        } else {
          RefinedTotal(c, found.value, Shots(c, e), tag, e.wall, kinds);
        }
      }
    }
  }

  lemma EnrolmentTotal(c: Settings, st: State, user: string, e: Env, kinds: seq<string>)
    ensures UserTotal(c, Enroll(c, st, user, e).0, user, kinds) <= UserTotal(c, st, user, kinds)
  {
    if ValidUsername(user) {
      var doc := Lookup(c, st, user).GetOr(NewDoc(e.wall));
      CommitTotal(c, st, user, EnrolledDoc(doc, Shots(c, e)), kinds);
      NothingInNew(e.wall, kinds);
      if EnrolledDoc(doc, Shots(c, e)).Some? {
        EnrolledTotal(doc, Shots(c, e), kinds);
      }
    }
  }

  lemma {:induction false} NothingInNew(wall: nat, kinds: seq<string>)
    ensures Total(NewDoc(wall), kinds) == 0
  {
    if kinds != [] {
      NothingInNew(wall, kinds[..|kinds| - 1]);
    }
  }

  lemma RemovalTotal(c: Settings, st: State, user: string, tag: string, kinds: seq<string>)
    ensures UserTotal(c, Remove(c, st, user, tag).0, user, kinds) <= UserTotal(c, st, user, kinds)
  {
    var found := Lookup(c, st, user);
    if found.Some? {
      CommitTotal(c, st, user, RemovedDoc(c, found.value, tag), kinds);
      if RemovedDoc(c, found.value, tag).Some? {
        RemovedTotal(c, found.value, tag, kinds);
      }
    }
  }

  // ---------------------------------------------------------------------------
  // Every run
  // ---------------------------------------------------------------------------

  /** The exchange stores more than there is room for, over all types together. */
  ghost predicate Overfills(c: Settings, st: State, x: Exchange, user: string, kinds: seq<string>) {
    && Names(x, user) && Lookup(c, st, user).Some?
    && var doc, shots, tag := Lookup(c, st, user).value, Shots(c, x.env), TagOf(x);
       match RequestOf(x).cmd
       case SetLabel =>
         && |RequestOf(x).args| >= 2 && Labellable(c, st, user, tag) && Utf8Label(c, tag)
         && Total(doc, kinds) + LabelGain(c, doc, tag, kinds) > c.maxEmbeddings
       case TrainNew =>
         && Trainable(c, st, user, true, x.env) && Utf8Training(c, tag, x.env)
         && Total(doc, kinds) + LearnedTotal(shots, kinds) > c.maxEmbeddings
       case TrainUser =>
         && Trainable(c, st, user, false, x.env) && Utf8Training(c, tag, x.env)
         && Total(doc, kinds) + RefineGain(doc, shots, tag, kinds) > c.maxEmbeddings
       case _ => false
  }

  lemma EffectTotal(c: Settings, st: State, x: Exchange, user: string, kinds: seq<string>)
    requires Names(x, user) && UserTotal(c, st, user, kinds) <= c.maxEmbeddings
    ensures UserTotal(c, Effect(c, st, x), user, kinds) <= c.maxEmbeddings <==> !Overfills(c, st, x, user, kinds)
  {
    match RequestOf(x).cmd
    case AddUser => EnrolmentTotal(c, st, user, x.env, kinds);
    case SetLabel => LabellingTotal(c, st, user, TagOf(x), x.env, kinds);
    case TrainUser => TrainingTotal(c, st, user, TagOf(x), false, x.env, kinds);
    case TrainNew => TrainingTotal(c, st, user, TagOf(x), true, x.env, kinds);
    case RemoveEmbedding => RemovalTotal(c, st, user, TagOf(x), kinds);
    case _ => VerifyLeavesOthers(c, st, user, x.env, user);
  }

  /** A user's total within the cap stays within it exactly when the exchange does not
      store more than there is room for. */
  lemma ServeTotal(c: Settings, st: State, x: Exchange, user: string, kinds: seq<string>)
    requires UserTotal(c, st, user, kinds) <= c.maxEmbeddings
    ensures UserTotal(c, Serve(c, st, x.data, x.env).0, user, kinds) <= c.maxEmbeddings <==>
            !Overfills(c, st, x, user, kinds)
  {
    if Names(x, user) {
      ServeIsOneOperation(c, st, x);
      EffectTotal(c, st, x, user, kinds);
    } else {
      ServeLeavesOthers(c, st, x, user);
    }
  }

  /** The user's total is within the cap now and was so after every exchange before. */
  ghost predicate AlwaysWithin(c: Settings, st: State, xs: seq<Exchange>, user: string, kinds: seq<string>) {
    && UserTotal(c, Run(c, st, xs), user, kinds) <= c.maxEmbeddings
    && (xs != [] ==> AlwaysWithin(c, st, xs[..|xs| - 1], user, kinds))
  }

  ghost predicate NeverOverfills(c: Settings, st: State, xs: seq<Exchange>, user: string, kinds: seq<string>) {
    xs != [] ==>
      var n := |xs| - 1;
      !Overfills(c, Run(c, st, xs[..n]), xs[n], user, kinds) && NeverOverfills(c, st, xs[..n], user, kinds)
  }

  /** The limit as documented, per user, is kept throughout a run exactly when no exchange
      of the run stores more than there is room for over all types together. */
  lemma {:induction false} TotalOverRunsExactly(c: Settings, st: State, xs: seq<Exchange>, user: string,
                                                kinds: seq<string>)
    requires UserTotal(c, st, user, kinds) <= c.maxEmbeddings
    ensures AlwaysWithin(c, st, xs, user, kinds) <==> NeverOverfills(c, st, xs, user, kinds)
  {
    if xs != [] {
      var n := |xs| - 1;
      TotalOverRunsExactly(c, st, xs[..n], user, kinds);
      if UserTotal(c, Run(c, st, xs[..n]), user, kinds) <= c.maxEmbeddings {
        ServeTotal(c, Run(c, st, xs[..n]), xs[n], user, kinds);
      }
    }
  }
}
