/** Properties of every run of the daemon: any sequence of connections, whatever their bytes
    and whatever the cameras and clocks contribute. A run says something about the code as
    long as every read holds a NUL (`Terminated`); on others the code reads past its buffer,
    and `Serve` is a value of the model only. */
module DaemonProperties {
  import opened Utf8
  import opened Domain
  import opened Protocol
  import opened EmbeddingStore
  import opened EngineSpec
  import opened EngineProperties
  import opened StoreProperties
  import opened Encoding
  import opened Daemon
  import L = Lockout

  function RequestOf(x: Exchange): Request {
    Parse(Received(x.data))
  }

  /** The exchange carries `cmd` for `user`. */
  predicate Asks(x: Exchange, cmd: Command, user: string) {
    RequestOf(x).cmd == cmd && RequestOf(x).args != [] && RequestOf(x).args[0] == user
  }

  /** The label the exchange carries, or the daemon's default for it. */
  function TagOf(x: Exchange): string {
    if |RequestOf(x).args| > 1 then RequestOf(x).args[1] else "default"
  }

  predicate Names(x: Exchange, user: string) {
    RequestOf(x).args != [] && RequestOf(x).args[0] == user
  }

  /** The one engine operation an exchange performs, for the user it names, if any. */
  ghost function Effect(c: Settings, st: State, x: Exchange): State {
    var req := RequestOf(x);
    if req.args == [] then st
    else
      var user := req.args[0];
      match req.cmd
      case AuthRequest => Verify(c, st, user, x.env).0
      case TestAuth => Verify(c, st, user, x.env).0
      case AddUser => Enroll(c, st, user, x.env).0
      case SetLabel => if |req.args| < 2 then st else EngineSpec.SetLabel(c, st, user, TagOf(x), x.env).0
      case TrainUser => Train(c, st, user, TagOf(x), false, x.env).0
      case TrainNew => Train(c, st, user, TagOf(x), true, x.env).0
      case RemoveEmbedding => if |req.args| < 2 then st else Remove(c, st, user, TagOf(x)).0
      case _ => st
  }

  lemma ServeIsOneOperation(c: Settings, st: State, x: Exchange)
    ensures Serve(c, st, x.data, x.env).0 == Effect(c, st, x)
  {
    if x.data == "" {
      assert Words("") == [];
    } else {
      DispatchIsOneOperation(c, st, x);
    }
  }

  lemma DispatchIsOneOperation(c: Settings, st: State, x: Exchange)
    ensures Dispatch(c, st, RequestOf(x), x.env).0 == Effect(c, st, x)
  {
    var req := RequestOf(x);
    assert |req.args| > 1 ==> req.args[1] == TagOf(x);
    match req.cmd
    case AuthRequest =>
    case TestAuth =>
    case AddUser =>
    case SetLabel =>
    case TrainUser =>
    case TrainNew =>
    case RemoveEmbedding =>
    case _ =>
  }

  // ---------------------------------------------------------------------------
  // Framing
  // ---------------------------------------------------------------------------

  /** A store operation that changes nothing but the file of one user. */
  ghost predicate Spares(c: Settings, st: State, after: State, user: string) {
    && after.lockout == st.lockout
    && forall other :: other != user ==> SameRecord(c, st, after, other)
  }

  lemma ContainedSpares(c: Settings, st: State, user: string, result: (State, Outcome<bool>))
    requires Contained(c, st, user, result)
    ensures Spares(c, st, result.0, user)
  {
    forall other | other != user
      ensures SameRecord(c, st, result.0, other)
    {
      ContainedLeavesOthers(c, st, user, other, result);
    }
  }

  lemma EffectSpares(c: Settings, st: State, x: Exchange)
    requires RequestOf(x).args != [] && RequestOf(x).cmd !in {AuthRequest, TestAuth}
    ensures Spares(c, st, Effect(c, st, x), RequestOf(x).args[0])
  {
    var user, tag, e := RequestOf(x).args[0], TagOf(x), x.env;
    match RequestOf(x).cmd
    case AddUser =>
      EnrollContained(c, st, user, e);
      ContainedSpares(c, st, user, Enroll(c, st, user, e));
    case SetLabel =>
      LabelContained(c, st, user, tag, e);
      ContainedSpares(c, st, user, EngineSpec.SetLabel(c, st, user, tag, e));
    case TrainUser =>
      TrainContained(c, st, user, tag, false, e);
      ContainedSpares(c, st, user, Train(c, st, user, tag, false, e));
    case TrainNew =>
      TrainContained(c, st, user, tag, true, e);
      ContainedSpares(c, st, user, Train(c, st, user, tag, true, e));
    case RemoveEmbedding =>
      RemoveContained(c, st, user, tag);
      ContainedSpares(c, st, user, Remove(c, st, user, tag));
    case _ =>
  }

  lemma EffectLeavesOthers(c: Settings, st: State, x: Exchange, other: string)
    requires !Names(x, other)
    ensures SameRecord(c, st, Effect(c, st, x), other)
  {
    if RequestOf(x).args != [] {
      if RequestOf(x).cmd in {AuthRequest, TestAuth} {
        VerifyLeavesOthers(c, st, RequestOf(x).args[0], x.env, other);
      } else {
        EffectSpares(c, st, x);
      }
    }
  }

  lemma ServeLeavesOthers(c: Settings, st: State, x: Exchange, other: string)
    requires !Names(x, other)
    ensures SameRecord(c, st, Serve(c, st, x.data, x.env).0, other)
  {
    ServeIsOneOperation(c, st, x);
    EffectLeavesOthers(c, st, x, other);
  }

  /** A user nobody names keeps document and lockout state through any run. */
  lemma {:induction false} RunLeavesOthers(c: Settings, st: State, xs: seq<Exchange>, other: string)
    requires forall i :: 0 <= i < |xs| ==> !Names(xs[i], other)
    ensures SameRecord(c, st, Run(c, st, xs), other)
  {
    if xs != [] {
      var n := |xs| - 1;
      RunLeavesOthers(c, st, xs[..n], other);
      ServeLeavesOthers(c, Run(c, st, xs[..n]), xs[n], other);
    }
  }

  // ---------------------------------------------------------------------------
  // The cap over every run
  // ---------------------------------------------------------------------------

  /** How often the run asks to refine `user`. */
  function Refinements(xs: seq<Exchange>, user: string): nat {
    if xs == [] then 0
    else Refinements(xs[..|xs| - 1], user) + if Asks(xs[|xs| - 1], TrainUser, user) then 1 else 0
  }

  lemma CommitView(c: Settings, st: State, user: string, doc: Option<UserDoc>, kind: string)
    ensures UserView(c, Commit(c, st, user, doc).0, user, kind) ==
            if doc.None? then UserView(c, st, user, kind)
            else if Encodable(doc.value) then View(doc.value, kind)
            else []
  {
  }

  lemma EnrollWithinCap(c: Settings, st: State, user: string, kind: string, e: Env)
    ensures |UserView(c, Enroll(c, st, user, e).0, user, kind)| <= |UserView(c, st, user, kind)|
  {
    var doc := Lookup(c, st, user).GetOr(NewDoc(e.wall));
    CommitView(c, st, user, EnrolledDoc(doc, Shots(c, e)), kind);
    if EnrolledDoc(doc, Shots(c, e)).Some? {
      EnrolledKeepsViews(doc, Shots(c, e), kind);
    }
  }

  lemma SetLabelWithinCap(c: Settings, st: State, user: string, kind: string, tag: string, e: Env)
    requires c.maxEmbeddings > 0
    ensures |UserView(c, EngineSpec.SetLabel(c, st, user, tag, e).0, user, kind)|
            <= Max(c.maxEmbeddings, |UserView(c, st, user, kind)|)
  {
    var found := Lookup(c, st, user);
    if found.Some? {
      CommitView(c, st, user, LabelledDoc(c, found.value, tag, e.wall), kind);
      if LabelledDoc(c, found.value, tag, e.wall).Some? {
        LabelledWithinCap(c, found.value, tag, e.wall, kind);
      }
    }
  }

  lemma RemoveShrinks(c: Settings, st: State, user: string, kind: string, tag: string)
    ensures |UserView(c, Remove(c, st, user, tag).0, user, kind)| <= |UserView(c, st, user, kind)|
  {
    var found := Lookup(c, st, user);
    if found.Some? {
      CommitView(c, st, user, RemovedDoc(c, found.value, tag), kind);
      if RemovedDoc(c, found.value, tag).Some? {
        RemovedIsFilter(c, found.value, tag, kind);
        KeepIsFilter(View(found.value, kind), tag);
      }
    }
  }

  lemma TrainNewWithinCap(c: Settings, st: State, user: string, kind: string, tag: string, e: Env)
    requires c.maxEmbeddings > 0
    ensures |UserView(c, Train(c, st, user, tag, true, e).0, user, kind)|
            <= Max(c.maxEmbeddings, |UserView(c, st, user, kind)|)
  {
    var found := Lookup(c, st, user);
    if found.Some? {
      CommitView(c, st, user, TrainedDoc(c, found.value, Shots(c, e), tag, true, e.wall), kind);
      if TrainedDoc(c, found.value, Shots(c, e), tag, true, e.wall).Some? {
        TrainedNewWithinCap(c, found.value, Shots(c, e), tag, e.wall, kind);
      }
    }
  }

  /** The refinement adds an entry to the user's list of `kind`: it has a readable document
      and UTF-8 to store, and the type learned something and lacks the label. */
  ghost predicate Grows(c: Settings, st: State, user: string, kind: string, tag: string, e: Env) {
    && Trainable(c, st, user, false, e) && Utf8Training(c, tag, e)
    && kind in LearnedKinds(Shots(c, e)) && !HasLabel(UserView(c, st, user, kind), tag)
  }

  lemma RefineGrowth(c: Settings, st: State, user: string, kind: string, tag: string, e: Env)
    ensures var size := |UserView(c, st, user, kind)|;
            var size' := |UserView(c, Train(c, st, user, tag, false, e).0, user, kind)|;
            if Grows(c, st, user, kind, tag, e) then size' == size + 1 else size' <= size
  {
    var found := Lookup(c, st, user);
    if found.Some? {
      CommitView(c, st, user, TrainedDoc(c, found.value, Shots(c, e), tag, false, e.wall), kind);
      if TrainedDoc(c, found.value, Shots(c, e), tag, false, e.wall).Some? {
        TrainedEncodable(c, found.value, Shots(c, e), tag, false, e.wall);
        RefinedGrowth(c, found.value, Shots(c, e), tag, e.wall, kind);
      }
    }
  }

  /** The exchange puts an entry into a list of the user that is full already. */
  ghost predicate Crowds(c: Settings, st: State, x: Exchange, user: string, kind: string) {
    && Asks(x, TrainUser, user) && Grows(c, st, user, kind, TagOf(x), x.env)
    && |UserView(c, st, user, kind)| >= c.maxEmbeddings
  }

  /** What one exchange may do to the size of a list. */
  ghost predicate SizeBound(c: Settings, st: State, x: Exchange, after: State, user: string, kind: string) {
    var size, size' := |UserView(c, st, user, kind)|, |UserView(c, after, user, kind)|;
    && (size' > Max(c.maxEmbeddings, size) <==> Crowds(c, st, x, user, kind))
    && size' <= if Asks(x, TrainUser, user) then size + 1 else Max(c.maxEmbeddings, size)
  }

  lemma RefineSize(c: Settings, st: State, x: Exchange, user: string, kind: string)
    requires Asks(x, TrainUser, user)
    ensures SizeBound(c, st, x, Train(c, st, user, TagOf(x), false, x.env).0, user, kind)
  {
    RefineGrowth(c, st, user, kind, TagOf(x), x.env);
  }

  lemma EffectSize(c: Settings, st: State, x: Exchange, user: string, kind: string)
    requires c.maxEmbeddings > 0 && Names(x, user)
    ensures SizeBound(c, st, x, Effect(c, st, x), user, kind)
  {
    match RequestOf(x).cmd
    case AddUser => EnrollWithinCap(c, st, user, kind, x.env);
    case SetLabel => SetLabelWithinCap(c, st, user, kind, TagOf(x), x.env);
    case TrainUser => RefineSize(c, st, x, user, kind);
    case TrainNew => TrainNewWithinCap(c, st, user, kind, TagOf(x), x.env);
    case RemoveEmbedding => RemoveShrinks(c, st, user, kind, TagOf(x));
    case _ => VerifyKeepsViews(c, st, user, x.env);
  }

  lemma VerifyKeepsViews(c: Settings, st: State, user: string, e: Env)
    ensures forall kind :: UserView(c, Verify(c, st, user, e).0, user, kind) == UserView(c, st, user, kind)
  {
  }

  lemma ServeSize(c: Settings, st: State, x: Exchange, user: string, kind: string)
    requires c.maxEmbeddings > 0
    ensures SizeBound(c, st, x, Serve(c, st, x.data, x.env).0, user, kind)
  {
    if Names(x, user) {
      ServeIsOneOperation(c, st, x);
      EffectSize(c, st, x, user, kind);
    } else {
      ServeLeavesOthers(c, st, x, user);
    }
  }

  /** Only refinements can push a list beyond the cap, each by at most one. */
  lemma {:induction false} CapOverRuns(c: Settings, st: State, xs: seq<Exchange>, user: string, kind: string)
    requires c.maxEmbeddings > 0
    ensures |UserView(c, Run(c, st, xs), user, kind)|
            <= Max(c.maxEmbeddings, |UserView(c, st, user, kind)|) + Refinements(xs, user)
  {
    if xs != [] {
      var n := |xs| - 1;
      CapOverRuns(c, st, xs[..n], user, kind);
      ServeSize(c, Run(c, st, xs[..n]), xs[n], user, kind);
    }
  }

  /** The list is within the cap now and was so after every exchange before. */
  ghost predicate AlwaysFits(c: Settings, st: State, xs: seq<Exchange>, user: string, kind: string) {
    && |UserView(c, Run(c, st, xs), user, kind)| <= c.maxEmbeddings
    && (xs != [] ==> AlwaysFits(c, st, xs[..|xs| - 1], user, kind))
  }

  /** No exchange of the run put an entry into the list while it was full. */
  ghost predicate NeverCrowds(c: Settings, st: State, xs: seq<Exchange>, user: string, kind: string) {
    xs != [] ==>
      var n := |xs| - 1;
      !Crowds(c, Run(c, st, xs[..n]), xs[n], user, kind) && NeverCrowds(c, st, xs[..n], user, kind)
  }

  /** A list within the cap stays within it throughout a run exactly when no refinement
      of the run puts an entry into it while it is full. */
  lemma {:induction false} CapOverRunsExactly(c: Settings, st: State, xs: seq<Exchange>, user: string, kind: string)
    requires c.maxEmbeddings > 0 && |UserView(c, st, user, kind)| <= c.maxEmbeddings
    ensures AlwaysFits(c, st, xs, user, kind) <==> NeverCrowds(c, st, xs, user, kind)
  {
    if xs != [] {
      var n := |xs| - 1;
      CapOverRunsExactly(c, st, xs[..n], user, kind);
      ServeSize(c, Run(c, st, xs[..n]), xs[n], user, kind);
    }
  }

  // ---------------------------------------------------------------------------
  // Runs beyond the cap
  // ---------------------------------------------------------------------------

  function Sent(cmd: Command, args: seq<string>, e: Env): Exchange {
    Exchange(Wire(Request(cmd, args)), e)
  }

  function EnrolRun(user: string, tag: string, e: Env): seq<Exchange> {
    [Sent(AddUser, [user], e), Sent(Command.SetLabel, [user, tag], e)]
  }

  lemma RunStep(c: Settings, st: State, xs: seq<Exchange>, x: Exchange)
    ensures Run(c, st, xs + [x]) == Serve(c, Run(c, st, xs), x.data, x.env).0
  {
    assert (xs + [x])[..|xs|] == xs;
  }

  /** A label that survives the wire. */
  predicate SoundTag(tag: string) {
    IsWord(tag) && '\0' !in tag && |tag| <= 900
  }

  lemma AddIsServed(c: Settings, st: State, user: string, e: Env)
    requires ValidUsername(user)
    ensures Serve(c, st, Sent(AddUser, [user], e).data, e) ==
            var d := StateReply(Enroll(c, st, user, e), "ENROLL_SUCCESS", "ENROLL_FAIL " + e.reason); (d.0, Some(d.1))
  {
    ShortRequest(AddUser, user, "");
    ServedAsSent(c, st, Request(AddUser, [user]), e);
  }

  /** A valid name with such a label is served as it was sent. */
  lemma PairIsServed(c: Settings, st: State, cmd: Command, user: string, tag: string, e: Env)
    requires ValidUsername(user) && SoundTag(tag)
    ensures Serve(c, st, Sent(cmd, [user, tag], e).data, e) ==
            var d := Dispatch(c, st, Request(cmd, [user, tag]), e); (d.0, Some(d.1))
  {
    ShortRequest(cmd, user, tag);
    ServedAsSent(c, st, Request(cmd, [user, tag]), e);
  }

  lemma LabelIsServed(c: Settings, st: State, user: string, tag: string, e: Env)
    requires ValidUsername(user) && SoundTag(tag)
    ensures Serve(c, st, Sent(Command.SetLabel, [user, tag], e).data, e) ==
            var d := StateReply(EngineSpec.SetLabel(c, st, user, tag, e), "LABEL_SET", "LABEL_FAIL"); (d.0, Some(d.1))
  {
    PairIsServed(c, st, Command.SetLabel, user, tag, e);
  }

  /** A new user with a sound UTF-8 label is told of both successes. */
  lemma NewUserServed(c: Settings, st: State, user: string, tag: string, e: Env) returns (mid: State, after: State)
    requires ValidUsername(user) && UserFile(c, user) !in st.files && ReadyToEnrol(c, tag, e) && SoundTag(tag)
    ensures Serve(c, st, Sent(AddUser, [user], e).data, e) == (mid, Some("ENROLL_SUCCESS"))
    ensures Serve(c, mid, Sent(Command.SetLabel, [user, tag], e).data, e) == (after, Some("LABEL_SET"))
    ensures Enroll(c, st, user, e) == (mid, Returned(true))
    ensures EngineSpec.SetLabel(c, mid, user, tag, e) == (after, Returned(true))
  {
    mid, after := NewUserIsLabelled(c, st, user, tag, e, e);
    AddIsServed(c, st, user, e);
    LabelIsServed(c, mid, user, tag, e);
  }

  lemma EnrolRunIs(c: Settings, st: State, user: string, tag: string, e: Env)
    requires ValidUsername(user) && SoundTag(tag)
    ensures Run(c, st, EnrolRun(user, tag, e)) == EngineSpec.SetLabel(c, Enroll(c, st, user, e).0, user, tag, e).0
  {
    var add, set' := Sent(AddUser, [user], e), Sent(Command.SetLabel, [user, tag], e);
    RunOfTwo(c, st, add, set');
    AddIsServed(c, st, user, e);
    LabelIsServed(c, Enroll(c, st, user, e).0, user, tag, e);
  }

  lemma RunOfTwo(c: Settings, st: State, x: Exchange, y: Exchange)
    ensures Run(c, st, [x, y]) == var mid := Serve(c, st, x.data, x.env).0; Serve(c, mid, y.data, y.env).0
  {
    RunStep(c, st, [], x);
    RunStep(c, st, [x], y);
    assert [] + [x] == [x] && [x] + [y] == [x, y];
  }

  /** From any state without a file of `user`: two requests enrol and label the user. */
  lemma EnrolRunReaches(c: Settings, st: State, user: string, tag: string, e: Env)
    requires ValidUsername(user) && UserFile(c, user) !in st.files && ReadyToEnrol(c, tag, e) && SoundTag(tag)
    ensures Lookup(c, Run(c, st, EnrolRun(user, tag, e)), user).Some?
    ensures forall i :: 0 <= i < |c.cameras| ==>
              var kind := c.cameras[i].kind;
              UserView(c, Run(c, st, EnrolRun(user, tag, e)), user, kind) == [Labelled(tag, EnrolledVector(c, e, kind))]
  {
    var mid, after := NewUserIsLabelled(c, st, user, tag, e, e);
    EnrolRunIs(c, st, user, tag, e);
    LabelContained(c, mid, user, tag, e);
    forall i | 0 <= i < |c.cameras|
      ensures var kind := c.cameras[i].kind;
              UserView(c, after, user, kind) == [Labelled(tag, EnrolledVector(c, e, kind))]
    {
      NewUserViews(c, st, mid, after, user, tag, e, e, i);
    }
  }

  lemma ReadyGrows(c: Settings, st: State, user: string, tag: string, e: Env)
    requires Lookup(c, st, user).Some? && ReadyToEnrol(c, tag, e)
    requires !HasLabel(UserView(c, st, user, c.cameras[0].kind), tag)
    ensures Grows(c, st, user, c.cameras[0].kind, tag, e)
  {
    var shots := Shots(c, e);
    assert shots[0] in shots && shots[0].camera.kind in LearnedKinds(shots);
  }

  /** A full list grows when it is refined under a label it lacks. */
  lemma FullListGrows(c: Settings, st: State, user: string, tag: string, e: Env)
    requires Lookup(c, st, user).Some? && ReadyToEnrol(c, tag, e) && SoundTag(tag)
    requires !HasLabel(UserView(c, st, user, c.cameras[0].kind), tag)
    ensures var kind := c.cameras[0].kind;
            |UserView(c, Serve(c, st, Sent(TrainUser, [user, tag], e).data, e).0, user, kind)|
            == |UserView(c, st, user, kind)| + 1
  {
    var after := Train(c, st, user, tag, false, e).0;
    assert Serve(c, st, Sent(TrainUser, [user, tag], e).data, e).0 == after by {
      PairIsServed(c, st, TrainUser, user, tag, e);
    }
    ReadyGrows(c, st, user, tag, e);
    RefineGrowth(c, st, user, c.cameras[0].kind, tag, e);
  }

  /** An enrolment, and a refinement under another label: two entries, whatever the cap. */
  lemma TwoEntries(c: Settings, st: State, user: string, tag: string, other: string, e: Env)
    requires ValidUsername(user) && UserFile(c, user) !in st.files && tag != other
    requires ReadyToEnrol(c, tag, e) && SoundTag(tag) && ReadyToEnrol(c, other, e) && SoundTag(other)
    ensures var xs := EnrolRun(user, tag, e) + [Sent(TrainUser, [user, other], e)];
            |UserView(c, Run(c, st, xs), user, c.cameras[0].kind)| == 2
  {
    EnrolRunReaches(c, st, user, tag, e);
    FullListGrows(c, Run(c, st, EnrolRun(user, tag, e)), user, other, e);
    RunStep(c, st, EnrolRun(user, tag, e), Sent(TrainUser, [user, other], e));
  }

  /** One camera, a cap of 1, and three requests from a fresh start: two embeddings. */
  lemma CapIsExceeded(policy: Policy) returns (c: Settings, e: Env)
    ensures c.policy == policy && c.maxEmbeddings == 1
    ensures |c.cameras| == 1 && c.cameras[0].kind == "rgb"
    ensures var xs := EnrolRun("alice", "a", e) + [Sent(TrainUser, ["alice", "b"], e)];
            |UserView(c, Run(c, State(map[], map[]), xs), "alice", "rgb")| == 2
  {
    c, e := ExampleWorld(policy, ["rgb"], 1);
    TwoEntries(c, State(map[], map[]), "alice", "a", "b", e);
  }

  /** Two camera types, a cap of 1, and one enrolment: two embeddings. */
  lemma CapIsPerType(policy: Policy) returns (c: Settings, e: Env)
    ensures c.policy == policy && c.maxEmbeddings == 1
    ensures |c.cameras| == 2 && c.cameras[0].kind == "ir" && c.cameras[1].kind == "rgb"
    ensures var after := Run(c, State(map[], map[]), EnrolRun("alice", "a", e));
            |UserView(c, after, "alice", "ir")| == |UserView(c, after, "alice", "rgb")| == 1
  {
    c, e := ExampleWorld(policy, ["ir", "rgb"], 1);
    EnrolRunReaches(c, State(map[], map[]), "alice", "a", e);
  }

  // ---------------------------------------------------------------------------
  // Distinct labels over every run
  // ---------------------------------------------------------------------------

  ghost predicate DistinctUser(c: Settings, st: State, user: string) {
    forall kind :: DistinctLabels(UserView(c, st, user, kind))
  }

  lemma CommitKeepsDistinct(c: Settings, st: State, user: string, doc: Option<UserDoc>)
    requires DistinctUser(c, st, user) && (doc.Some? ==> Distinct(doc.value))
    ensures DistinctUser(c, Commit(c, st, user, doc).0, user)
  {
    forall kind
      ensures DistinctLabels(UserView(c, Commit(c, st, user, doc).0, user, kind))
    {
      CommitView(c, st, user, doc, kind);
      assert DistinctLabels(UserView(c, st, user, kind));
    }
  }

  lemma DocumentStaysDistinct(c: Settings, doc: UserDoc, tag: string, e: Env)
    requires Distinct(doc)
    ensures EnrolledDoc(doc, Shots(c, e)).Some? ==> Distinct(EnrolledDoc(doc, Shots(c, e)).value)
    ensures LabelledDoc(c, doc, tag, e.wall).Some? ==> Distinct(LabelledDoc(c, doc, tag, e.wall).value)
    ensures TrainedDoc(c, doc, Shots(c, e), tag, false, e.wall).Some? ==>
              Distinct(TrainedDoc(c, doc, Shots(c, e), tag, false, e.wall).value)
    ensures RemovedDoc(c, doc, tag).Some? ==> Distinct(RemovedDoc(c, doc, tag).value)
  {
    if EnrolledDoc(doc, Shots(c, e)).Some? {
      forall kind
        ensures DistinctLabels(View(EnrolledDoc(doc, Shots(c, e)).value, kind))
      {
        EnrolledKeepsViews(doc, Shots(c, e), kind);
        assert DistinctLabels(View(doc, kind));
      }
    }
    if LabelledDoc(c, doc, tag, e.wall).Some? {
      LabelledKeepsDistinct(c, doc, tag, e.wall);
    }
    if TrainedDoc(c, doc, Shots(c, e), tag, false, e.wall).Some? {
      RefinedKeepsDistinct(c, doc, Shots(c, e), tag, e.wall);
    }
    if RemovedDoc(c, doc, tag).Some? {
      RemovedKeepsDistinct(c, doc, tag);
    }
  }

  lemma EffectKeepsDistinct(c: Settings, st: State, x: Exchange, user: string)
    requires DistinctUser(c, st, user) && Names(x, user) && RequestOf(x).cmd != TrainNew
    ensures DistinctUser(c, Effect(c, st, x), user)
  {
    var tag, e := TagOf(x), x.env;
    var doc := Lookup(c, st, user).GetOr(NewDoc(e.wall));
    assert Distinct(doc) by {
      assert forall kind :: View(doc, kind) == [] || View(doc, kind) == UserView(c, st, user, kind);
    }
    DocumentStaysDistinct(c, doc, tag, e);
    match RequestOf(x).cmd
    case AddUser => CommitKeepsDistinct(c, st, user, EnrolledDoc(doc, Shots(c, e)));
    case SetLabel => CommitKeepsDistinct(c, st, user, LabelledDoc(c, doc, tag, e.wall));
    case TrainUser => CommitKeepsDistinct(c, st, user, TrainedDoc(c, doc, Shots(c, e), tag, false, e.wall));
    case RemoveEmbedding => CommitKeepsDistinct(c, st, user, RemovedDoc(c, doc, tag));
    case _ => VerifyKeepsViews(c, st, user, e);
  }

  lemma ServeKeepsDistinct(c: Settings, st: State, x: Exchange, user: string)
    requires DistinctUser(c, st, user) && !Asks(x, TrainNew, user)
    ensures DistinctUser(c, Serve(c, st, x.data, x.env).0, user)
  {
    if Names(x, user) {
      ServeIsOneOperation(c, st, x);
      EffectKeepsDistinct(c, st, x, user);
    } else {
      ServeLeavesOthers(c, st, x, user);
      assert forall kind :: UserView(c, Serve(c, st, x.data, x.env).0, user, kind) == UserView(c, st, user, kind);
    }
  }

  /** Without TRAIN_NEW for a user, distinct labels stay distinct through any run. */
  lemma {:induction false} DistinctOverRuns(c: Settings, st: State, xs: seq<Exchange>, user: string)
    requires DistinctUser(c, st, user)
    requires forall i :: 0 <= i < |xs| ==> !Asks(xs[i], TrainNew, user)
    ensures DistinctUser(c, Run(c, st, xs), user)
  {
    if xs != [] {
      var n := |xs| - 1;
      DistinctOverRuns(c, st, xs[..n], user);
      ServeKeepsDistinct(c, Run(c, st, xs[..n]), xs[n], user);
    }
  }

  // ---------------------------------------------------------------------------
  // Broken files over every run
  // ---------------------------------------------------------------------------

  /** The exchange leaves a broken file where there was none, or a readable one. */
  ghost predicate Breaks(c: Settings, st: State, x: Exchange, user: string) {
    Names(x, user) &&
    match RequestOf(x).cmd
    case AddUser => EnrolmentBreaks(c, st, user, x.env)
    case SetLabel => |RequestOf(x).args| >= 2 && LabelBreaks(c, st, user, TagOf(x))
    case TrainUser => TrainingBreaks(c, st, user, TagOf(x), false, x.env)
    case TrainNew => TrainingBreaks(c, st, user, TagOf(x), true, x.env)
    case _ => false
  }

  lemma EnrollBreaks(c: Settings, st: State, user: string, e: Env)
    ensures Broken(c, Enroll(c, st, user, e).0, user) <==> Broken(c, st, user) || EnrolmentBreaks(c, st, user, e)
  {
    EnrollContained(c, st, user, e);
    EnrolmentAllOrNothing(c, st, user, e);
    ContainedBreaks(c, st, user, Enroll(c, st, user, e));
  }

  lemma SetLabelBreaks(c: Settings, st: State, user: string, tag: string, e: Env)
    ensures Broken(c, EngineSpec.SetLabel(c, st, user, tag, e).0, user) <==>
            Broken(c, st, user) || LabelBreaks(c, st, user, tag)
  {
    LabelContained(c, st, user, tag, e);
    LabellingAllOrNothing(c, st, user, tag, e);
    ContainedBreaks(c, st, user, EngineSpec.SetLabel(c, st, user, tag, e));
  }

  lemma TrainBreaks(c: Settings, st: State, user: string, tag: string, createNew: bool, e: Env)
    ensures Broken(c, Train(c, st, user, tag, createNew, e).0, user) <==>
            Broken(c, st, user) || TrainingBreaks(c, st, user, tag, createNew, e)
  {
    TrainContained(c, st, user, tag, createNew, e);
    TrainingAllOrNothing(c, st, user, tag, createNew, e);
    ContainedBreaks(c, st, user, Train(c, st, user, tag, createNew, e));
  }

  lemma RemoveBreaks(c: Settings, st: State, user: string, tag: string)
    ensures Broken(c, Remove(c, st, user, tag).0, user) <==> Broken(c, st, user)
  {
    RemoveContained(c, st, user, tag);
    RemovalAllOrNothing(c, st, user, tag);
    ContainedBreaks(c, st, user, Remove(c, st, user, tag));
  }

  lemma EffectBreaks(c: Settings, st: State, x: Exchange, user: string)
    requires Names(x, user)
    ensures Broken(c, Effect(c, st, x), user) <==> Broken(c, st, user) || Breaks(c, st, x, user)
  {
    match RequestOf(x).cmd
    case AddUser => EnrollBreaks(c, st, user, x.env);
    case SetLabel => SetLabelBreaks(c, st, user, TagOf(x), x.env);
    case TrainUser => TrainBreaks(c, st, user, TagOf(x), false, x.env);
    case TrainNew => TrainBreaks(c, st, user, TagOf(x), true, x.env);
    case RemoveEmbedding => RemoveBreaks(c, st, user, TagOf(x));
    case _ => VerifyLeavesOthers(c, st, user, x.env, user);
  }

  lemma ServeBreaks(c: Settings, st: State, x: Exchange, user: string)
    ensures Broken(c, Serve(c, st, x.data, x.env).0, user) <==> Broken(c, st, user) || Breaks(c, st, x, user)
  {
    if Names(x, user) {
      ServeIsOneOperation(c, st, x);
      EffectBreaks(c, st, x, user);
    } else {
      ServeLeavesOthers(c, st, x, user);
    }
  }

  /** Some exchange of the run broke the user's file. */
  ghost predicate SomeBreaks(c: Settings, st: State, xs: seq<Exchange>, user: string) {
    xs != [] &&
    var n := |xs| - 1;
    SomeBreaks(c, st, xs[..n], user) || Breaks(c, Run(c, st, xs[..n]), xs[n], user)
  }

  /** After a run a user's file is broken exactly when it was so before, or some exchange
      had something to store for the user that is not UTF-8. No request repairs it. */
  lemma {:induction false} BrokenOverRuns(c: Settings, st: State, xs: seq<Exchange>, user: string)
    ensures Broken(c, Run(c, st, xs), user) <==> Broken(c, st, user) || SomeBreaks(c, st, xs, user)
  {
    if xs != [] {
      var n := |xs| - 1;
      BrokenOverRuns(c, st, xs[..n], user);
      ServeBreaks(c, Run(c, st, xs[..n]), xs[n], user);
    }
  }

  /** And as long as it is broken, nothing the cameras show is accepted. */
  lemma BrokenIsLockedOut(c: Settings, st: State, xs: seq<Exchange>, user: string, e: Env)
    requires Broken(c, st, user)
    ensures !Accepts(c, Run(c, st, xs), user, e) && !Verdict(c, Run(c, st, xs), user, e).recorded
  {
    BrokenOverRuns(c, st, xs, user);
  }

  lemma Utf8Breaks(c: Settings, st: State, x: Exchange, user: string)
    requires IsUtf8(c.modelVersion) && forall i :: 0 <= i < |c.cameras| ==> IsUtf8(c.cameras[i].kind)
    requires IsUtf8(TagOf(x))
    ensures !Breaks(c, st, x, user)
  {
    assert forall k :: k in LearnedKinds(Shots(c, x.env)) ==> IsUtf8(k);
  }

  /** With camera types and a model version in UTF-8, requests with UTF-8 labels never
      break a file. */
  lemma {:induction false} Utf8NeverBreaks(c: Settings, st: State, xs: seq<Exchange>, user: string)
    requires IsUtf8(c.modelVersion) && forall i :: 0 <= i < |c.cameras| ==> IsUtf8(c.cameras[i].kind)
    requires forall i :: 0 <= i < |xs| && Names(xs[i], user) ==> IsUtf8(TagOf(xs[i]))
    ensures !SomeBreaks(c, st, xs, user)
  {
    if xs != [] {
      var n := |xs| - 1;
      Utf8NeverBreaks(c, st, xs[..n], user);
      if Names(xs[n], user) {
        Utf8Breaks(c, Run(c, st, xs[..n]), xs[n], user);
      }
    }
  }

  /** A label that breaks the file is answered with an exception. */
  lemma BreakingLabelServed(c: Settings, st: State, user: string, tag: string, e: Env)
    requires SoundTag(tag) && LabelBreaks(c, st, user, tag)
    ensures var r := Serve(c, st, Sent(Command.SetLabel, [user, tag], e).data, e);
            r.1 == Some(EXCEPTION) && Broken(c, r.0, user)
  {
    LabelIsServed(c, st, user, tag, e);
    SetLabelBreaks(c, st, user, tag, e);
    LabellingAllOrNothing(c, st, user, tag, e);
  }

  lemma PendingBreaks(c: Settings, st: State, user: string, tag: string, e: Env)
    requires Lookup(c, st, user).Some? && LabelledDoc(c, Lookup(c, st, user).value, tag, e.wall).Some? && !IsUtf8(tag)
    ensures LabelBreaks(c, st, user, tag)
  {
  }

  /** Whoever was just enrolled loses the file to a label that is not UTF-8. */
  lemma NewUserIsBroken(c: Settings, st: State, user: string, tag: string, e: Env)
    requires ValidUsername(user) && UserFile(c, user) !in st.files && ReadyToEnrol(c, "", e)
    requires SoundTag(tag) && !IsUtf8(tag)
    ensures var add := Serve(c, st, Sent(AddUser, [user], e).data, e);
            var set' := Serve(c, add.0, Sent(Command.SetLabel, [user, tag], e).data, e);
            && Lookup(c, add.0, user).Some? && set'.1 == Some(EXCEPTION) && Broken(c, set'.0, user)
  {
    var mid := Enroll(c, st, user, e).0;
    NewUserEnrols(c, st, user, e);
    AddIsServed(c, st, user, e);
    PendingBreaks(c, mid, user, tag, e);
    BreakingLabelServed(c, mid, user, tag, e);
  }

  /** The byte 0xFF as a label, right after an enrolment. */
  lemma LabelBreaksFile(policy: Policy) returns (c: Settings, e: Env)
    ensures c.policy == policy
    ensures var add := Serve(c, State(map[], map[]), Sent(AddUser, ["alice"], e).data, e);
            var set' := Serve(c, add.0, Sent(Command.SetLabel, ["alice", "\U{FF}"], e).data, e);
            && Lookup(c, add.0, "alice").Some? && set'.1 == Some(EXCEPTION) && Broken(c, set'.0, "alice")
  {
    c, e := ExampleWorld(policy, ["rgb"], 5);
    assert CharLength("\U{FF}") == 0;
    NewUserIsBroken(c, State(map[], map[]), "alice", "\U{FF}", e);
  }

  // ---------------------------------------------------------------------------
  // Lockout over every run
  // ---------------------------------------------------------------------------

  /** What one exchange adds to the history of recorded attempts. */
  ghost function Recorded(c: Settings, st: State, x: Exchange): seq<L.Attempt> {
    var req := RequestOf(x);
    if x.data == "" || req.cmd !in {AuthRequest, TestAuth} || req.args == [] then []
    else
      var d := Verdict(c, st, req.args[0], x.env);
      if d.recorded then [L.Attempt(req.args[0], d.success, x.env.gate, x.env.stamp)] else []
  }

  ghost function History(c: Settings, st: State, xs: seq<Exchange>): seq<L.Attempt> {
    if xs == [] then []
    else
      var n := |xs| - 1;
      History(c, st, xs[..n]) + Recorded(c, Run(c, st, xs[..n]), xs[n])
  }

  lemma EffectKeepsLockout(c: Settings, st: State, x: Exchange)
    requires RequestOf(x).cmd !in {AuthRequest, TestAuth}
    ensures Effect(c, st, x).lockout == st.lockout
  {
    if RequestOf(x).args != [] {
      EffectSpares(c, st, x);
    }
  }

  lemma ServeLockout(c: Settings, st: State, x: Exchange)
    ensures var r := Recorded(c, st, x);
            Serve(c, st, x.data, x.env).0.lockout ==
            if r == [] then st.lockout else L.Record(c, st.lockout, r[0].user, r[0].success, r[0].stamp)
    ensures |Recorded(c, st, x)| <= 1
    ensures Recorded(c, st, x) != [] ==>
              var a := Recorded(c, st, x)[0];
              a.gate == x.env.gate && a.stamp == x.env.stamp && !L.Locked(c, st.lockout, a.user, a.gate)
  {
    if RequestOf(x).cmd !in {AuthRequest, TestAuth} {
      ServeIsOneOperation(c, st, x);
      EffectKeepsLockout(c, st, x);
    }
  }

  /** From a fresh start, the lockout map is explained by the history of the run. */
  lemma {:induction false} LockoutExplained(c: Settings, st: State, xs: seq<Exchange>)
    requires c.lockoutAttempts > 0 && st.lockout == map[]
    ensures L.Explains(c, History(c, st, xs), Run(c, st, xs).lockout)
  {
    if xs == [] {
      assert forall user :: L.OfUser([], user) == [];
    } else {
      var n := |xs| - 1;
      LockoutExplained(c, st, xs[..n]);
      var before := Run(c, st, xs[..n]);
      ServeLockout(c, before, xs[n]);
      var r := Recorded(c, before, xs[n]);
      if r == [] {
        assert History(c, st, xs) == History(c, st, xs[..n]);
      } else {
        assert r == [r[0]];
        L.RecordExplained(c, History(c, st, xs[..n]), before.lockout, r[0]);
      }
    }
  }

  /** In every reachable state a user is locked exactly when the history has at least N
      failures since that user's last success and the last of them is recent. */
  lemma LockedByHistory(c: Settings, st: State, xs: seq<Exchange>, user: string, now: nat)
    requires st.lockout == map[]
    ensures L.Locked(c, Run(c, st, xs).lockout, user, now) <==>
            c.lockoutAttempts > 0 && L.HistoryLocks(c, L.OfUser(History(c, st, xs), user), now)
  {
    if c.lockoutAttempts > 0 {
      LockoutExplained(c, st, xs);
      L.LockedIsHistory(c, History(c, st, xs), Run(c, st, xs).lockout, user, now);
    }
  }

  /** Each attempt reads its gate no later than it is recorded. */
  predicate Timely(xs: seq<Exchange>) {
    forall i :: 0 <= i < |xs| ==> xs[i].env.gate <= xs[i].env.stamp
  }

  lemma {:induction false} HistoryPaced(c: Settings, st: State, xs: seq<Exchange>, user: string)
    requires c.lockoutAttempts > 0 && st.lockout == map[] && Timely(xs)
    ensures L.Paced(c, L.OfUser(History(c, st, xs), user))
  {
    if xs != [] {
      var n := |xs| - 1;
      HistoryPaced(c, st, xs[..n], user);
      var before, h := Run(c, st, xs[..n]), History(c, st, xs[..n]);
      ServeLockout(c, before, xs[n]);
      var r := Recorded(c, before, xs[n]);
      if r == [] {
        assert History(c, st, xs) == h;
      } else {
        assert r == [r[0]];
        assert (h + [r[0]])[..|h|] == h;
        LockedByHistory(c, st, xs[..n], r[0].user, r[0].gate);
        if r[0].user == user {
          L.PacedAppend(c, L.OfUser(h, user), r[0]);
        } else {
          assert L.OfUser(h, user) + [] == L.OfUser(h, user);
        }
      }
    }
  }

  /** The rate bound: of m >= N recorded failures of a user in a row, the last comes at
      least (m - N) lockout durations after the N-th, in every run from a fresh start. */
  lemma FailuresAreRateBound(c: Settings, st: State, xs: seq<Exchange>, user: string, i: nat, m: nat)
    requires 0 < c.lockoutAttempts <= m && st.lockout == map[] && Timely(xs)
    requires var h := L.OfUser(History(c, st, xs), user);
             i + m <= |h| && forall k :: i <= k < i + m ==> !h[k].success
    ensures var h := L.OfUser(History(c, st, xs), user);
            h[i + m - 1].stamp >= h[i + c.lockoutAttempts - 1].stamp + (m - c.lockoutAttempts) * L.Duration(c)
  {
    HistoryPaced(c, st, xs, user);
    L.RateBound(c, L.OfUser(History(c, st, xs), user), i, m);
  }
}
