/** Properties that span the engine's operations on the daemon's state. */
module EngineProperties {
  import opened Utf8
  import opened Domain
  import opened EmbeddingStore
  import opened EngineSpec
  import opened StoreProperties
  import opened Encoding
  import V = Verification
  import L = Lockout

  // ---------------------------------------------------------------------------
  // All or nothing, and nobody else
  // ---------------------------------------------------------------------------

  /** A store operation for `user` that reported failure and changed nothing, or reported
      success and left a readable document in that user's file, or threw and left a
      broken file, which it also found or has made. Nothing else changed. */
  ghost predicate Contained(c: Settings, st: State, user: string, result: (State, Outcome<bool>)) {
    && result.0.lockout == st.lockout
    && result.0.files - {UserFile(c, user)} == st.files - {UserFile(c, user)}
    && (result.1 == Returned(false) ==> result.0 == st)
    && (result.1 == Returned(true) ==> Lookup(c, result.0, user).Some?)
    && (result.1.Threw? ==> Broken(c, result.0, user))
    && (Broken(c, st, user) ==> result.0 == st && result.1 != Returned(true))
  }

  lemma CommitContained(c: Settings, st: State, user: string, doc: Option<UserDoc>)
    requires ValidUsername(user) && !Broken(c, st, user)
    ensures Contained(c, st, user, Commit(c, st, user, doc))
  {
    var after := Commit(c, st, user, doc).0;
    assert after.files - {UserFile(c, user)} == st.files - {UserFile(c, user)};
  }

  lemma EnrollContained(c: Settings, st: State, user: string, e: Env)
    ensures Contained(c, st, user, Enroll(c, st, user, e))
  {
    if ValidUsername(user) && !Broken(c, st, user) {
      CommitContained(c, st, user, EnrolledDoc(Lookup(c, st, user).GetOr(NewDoc(e.wall)), Shots(c, e)));
    }
  }

  lemma LabelContained(c: Settings, st: State, user: string, tag: string, e: Env)
    ensures Contained(c, st, user, SetLabel(c, st, user, tag, e))
  {
    if Lookup(c, st, user).Some? {
      CommitContained(c, st, user, LabelledDoc(c, Lookup(c, st, user).value, tag, e.wall));
    }
  }

  lemma TrainContained(c: Settings, st: State, user: string, tag: string, createNew: bool, e: Env)
    ensures Contained(c, st, user, Train(c, st, user, tag, createNew, e))
  {
    if Lookup(c, st, user).Some? {
      CommitContained(c, st, user, TrainedDoc(c, Lookup(c, st, user).value, Shots(c, e), tag, createNew, e.wall));
    }
  }

  lemma RemoveContained(c: Settings, st: State, user: string, tag: string)
    ensures Contained(c, st, user, Remove(c, st, user, tag))
  {
    if Lookup(c, st, user).Some? {
      CommitContained(c, st, user, RemovedDoc(c, Lookup(c, st, user).value, tag));
    }
  }

  lemma StoreOperationsContained(c: Settings, st: State, user: string, tag: string, createNew: bool, e: Env)
    ensures Contained(c, st, user, Enroll(c, st, user, e))
    ensures Contained(c, st, user, SetLabel(c, st, user, tag, e))
    ensures Contained(c, st, user, Train(c, st, user, tag, createNew, e))
    ensures Contained(c, st, user, Remove(c, st, user, tag))
  {
    EnrollContained(c, st, user, e);
    LabelContained(c, st, user, tag, e);
    TrainContained(c, st, user, tag, createNew, e);
    RemoveContained(c, st, user, tag);
  }

  /** Nothing is left half done: a call that throws has changed nothing. */
  ghost predicate AllOrNothing(st: State, result: (State, Outcome<bool>)) {
    result.1.Threw? ==> result.0 == st
  }

  lemma CommitAllOrNothing(c: Settings, st: State, user: string, doc: Option<UserDoc>)
    requires !Broken(c, st, user) && ValidUsername(user)
    ensures AllOrNothing(st, Commit(c, st, user, doc)) <==> (doc.Some? ==> Encodable(doc.value))
  {
    if doc.Some? && !Encodable(doc.value) {
      assert Broken(c, Commit(c, st, user, doc).0, user);
    }
  }

  /** There is something to label: some active type is pending, and none of those is full
      for the label. */
  ghost predicate Labellable(c: Settings, st: State, user: string, tag: string) {
    && Lookup(c, st, user).Some?
    && var doc := Lookup(c, st, user).value;
       && PendingKinds(c.cameras, doc) != {}
       && forall k :: k in PendingKinds(c.cameras, doc) ==> !Full(c, doc, k, tag)
  }

  /** There is something to train: some camera sees a single face, and new embeddings have
      room in every list. */
  ghost predicate Trainable(c: Settings, st: State, user: string, createNew: bool, e: Env) {
    && e.models && Lookup(c, st, user).Some?
    && LearnedKinds(Shots(c, e)) != {}
    && (createNew ==> !Overflows(c, Lookup(c, st, user).value, Shots(c, e)))
  }

  predicate Utf8Label(c: Settings, tag: string) {
    IsUtf8(tag) && IsUtf8(c.modelVersion)
  }

  predicate Utf8Training(c: Settings, tag: string, e: Env) {
    IsUtf8(tag) && forall k | k in LearnedKinds(Shots(c, e)) :: IsUtf8(k)
  }

  /** Label or model version are not UTF-8. */
  ghost predicate LabelBreaks(c: Settings, st: State, user: string, tag: string) {
    Labellable(c, st, user, tag) && !Utf8Label(c, tag)
  }

  /** The label or a type that learned is not UTF-8. */
  ghost predicate TrainingBreaks(c: Settings, st: State, user: string, tag: string, createNew: bool, e: Env) {
    Trainable(c, st, user, createNew, e) && !Utf8Training(c, tag, e)
  }

  /** Every camera sees one face, and some camera type is not UTF-8. */
  ghost predicate EnrolmentBreaks(c: Settings, st: State, user: string, e: Env) {
    && e.models && ValidUsername(user) && !Broken(c, st, user)
    && (forall i :: 0 <= i < |c.cameras| ==> Usable(Shots(c, e)[i]))
    && exists i :: 0 <= i < |c.cameras| && !IsUtf8(c.cameras[i].kind)
  }

  /** The file is emptied before the document is serialized, and only UTF-8 can be
      serialized. So labelling is all or nothing exactly when there is nothing to store,
      or both label and model version are UTF-8. */
  lemma LabellingAllOrNothing(c: Settings, st: State, user: string, tag: string, e: Env)
    ensures AllOrNothing(st, SetLabel(c, st, user, tag, e)) <==> !LabelBreaks(c, st, user, tag)
  {
    if Lookup(c, st, user).Some? {
      var doc := Lookup(c, st, user).value;
      var after := LabelledDoc(c, doc, tag, e.wall);
      CommitAllOrNothing(c, st, user, after);
      if after.Some? {
        LabelledEncodable(c, doc, tag, e.wall);
      }
    }
  }

  /** Training is all or nothing exactly when there is nothing to store, or the label and
      the camera types that learned are UTF-8. */
  lemma TrainingAllOrNothing(c: Settings, st: State, user: string, tag: string, createNew: bool, e: Env)
    ensures AllOrNothing(st, Train(c, st, user, tag, createNew, e)) <==>
            !TrainingBreaks(c, st, user, tag, createNew, e)
  {
    if e.models && Lookup(c, st, user).Some? {
      var doc := Lookup(c, st, user).value;
      var after := TrainedDoc(c, doc, Shots(c, e), tag, createNew, e.wall);
      CommitAllOrNothing(c, st, user, after);
      if after.Some? {
        TrainedEncodable(c, doc, Shots(c, e), tag, createNew, e.wall);
      }
    }
  }

  /** Enrolment is all or nothing exactly when it fails, or all camera types are UTF-8. */
  lemma EnrolmentAllOrNothing(c: Settings, st: State, user: string, e: Env)
    ensures AllOrNothing(st, Enroll(c, st, user, e)) <==> !EnrolmentBreaks(c, st, user, e)
  {
    if e.models && ValidUsername(user) && !Broken(c, st, user) {
      var doc := Lookup(c, st, user).GetOr(NewDoc(e.wall));
      CommitAllOrNothing(c, st, user, EnrolledDoc(doc, Shots(c, e)));
      assert forall i :: 0 <= i < |c.cameras| ==> Shots(c, e)[i] in Shots(c, e);
      if EnrolledDoc(doc, Shots(c, e)).Some? {
        EnrolledEncodable(doc, Shots(c, e));
      }
    }
  }

  lemma RemovalAllOrNothing(c: Settings, st: State, user: string, tag: string)
    ensures AllOrNothing(st, Remove(c, st, user, tag))
  {
    if Lookup(c, st, user).Some? {
      var doc := Lookup(c, st, user).value;
      CommitAllOrNothing(c, st, user, RemovedDoc(c, doc, tag));
      if RemovedDoc(c, doc, tag).Some? {
        RemovedEncodable(c, doc, tag);
      }
    }
  }

  /** A call breaks a file exactly when it is not all or nothing. */
  lemma ContainedBreaks(c: Settings, st: State, user: string, result: (State, Outcome<bool>))
    requires Contained(c, st, user, result)
    ensures Broken(c, result.0, user) <==> Broken(c, st, user) || !AllOrNothing(st, result)
  {
    if result.1.Returned? && !result.1.value {
      assert result.1 == Returned(false);
    }
  }

  /** What one user owns: a document and a lockout state. */
  predicate SameRecord(c: Settings, st: State, after: State, user: string) {
    && (UserFile(c, user) in after.files <==> UserFile(c, user) in st.files)
    && (UserFile(c, user) in st.files ==> after.files[UserFile(c, user)] == st.files[UserFile(c, user)])
    && L.StateOf(after.lockout, user) == L.StateOf(st.lockout, user)
  }

  lemma ContainedLeavesOthers(c: Settings, st: State, user: string, other: string,
                              result: (State, Outcome<bool>))
    requires Contained(c, st, user, result) && user != other
    ensures SameRecord(c, st, result.0, other)
  {
    var mine, theirs := UserFile(c, user), UserFile(c, other);
    if mine == theirs {
      UserFileInjective(c, user, other);
    }
    assert theirs in st.files <==> theirs in st.files - {mine};
    assert theirs in result.0.files <==> theirs in result.0.files - {mine};
    if theirs in st.files {
      assert (st.files - {mine})[theirs] == (result.0.files - {mine})[theirs];
    }
  }

  lemma VerifyLeavesOthers(c: Settings, st: State, user: string, e: Env, other: string)
    ensures Verify(c, st, user, e).0.files == st.files
    ensures user != other ==> SameRecord(c, st, Verify(c, st, user, e).0, other)
  {
  }

  // ---------------------------------------------------------------------------
  // Verification
  // ---------------------------------------------------------------------------

  /** An attempt touches the lockout map only if it ran to its end: the name was valid,
      its file readable, the user not locked, no camera aborted and one took part. */
  lemma RecordedAttempts(c: Settings, st: State, user: string, e: Env)
    ensures Verdict(c, st, user, e).recorded <==>
            && e.models && Lookup(c, st, user).Some?
            && !L.Locked(c, st.lockout, user, e.gate)
            && (forall i :: 0 <= i < |c.cameras| ==> !V.Aborts(c, Shots(c, e)[i]))
            && (exists i :: 0 <= i < |c.cameras| && V.Participates(Shots(c, e)[i]))
    ensures !Verdict(c, st, user, e).recorded ==>
              && Verify(c, st, user, e).0 == st
              && Verify(c, st, user, e).1 in {Returned(AuthResult(false, 0.0)), Threw}
    ensures Accepts(c, st, user, e) ==> Verdict(c, st, user, e).recorded
  {
    var shots := Shots(c, e);
    if Attempted(c, st, user, e) && !V.SomeAborts(c, shots) && !V.SomeParticipates(shots) {
      var doc := Lookup(c, st, user).value;
      V.BestScoreIsMaximum(c, doc, shots);
      assert forall i :: 0 <= i < |shots| ==> V.ShotScore(c, doc, shots[i]) == 0.0;
    }
  }

  /** Verification gives the same verdict, the same score and the same lockouts in
      whatever order the cameras are listed, each with its own observation. */
  lemma CameraOrderIrrelevant(c: Settings, cameras: seq<Camera>, st: State, user: string, e: Env, e': Env)
    requires e' == e.(frames := e'.frames)
    requires multiset(Shots(c.(cameras := cameras), e')) == multiset(Shots(c, e))
    ensures Verify(c.(cameras := cameras), st, user, e') == Verify(c, st, user, e)
  {
    var d := c.(cameras := cameras);
    if Attempted(c, st, user, e) {
      var doc := Lookup(c, st, user).value;
      V.OrderIrrelevant(c, doc, Shots(d, e'), Shots(c, e));
      V.DecideIgnoresCameraList(c, cameras, doc, Shots(d, e'));
    }
  }

  lemma TrainingNeverLocksOut(c: Settings, st: State, user: string, tag: string, learned: Env, e: Env)
    requires Train(c, st, user, tag, true, learned).1 == Returned(true)
    ensures Accepts(c, st, user, e) ==> Accepts(c, Train(c, st, user, tag, true, learned).0, user, e)
  {
    var doc := Lookup(c, st, user).value;
    TrainedNewStoresMore(c, doc, Shots(c, learned), tag, learned.wall);
    var after := TrainedDoc(c, doc, Shots(c, learned), tag, true, learned.wall).value;
    V.DecisionMonotone(c, doc, after, Shots(c, e));
  }

  lemma RemovalNeverAdmits(c: Settings, st: State, user: string, tag: string, e: Env)
    requires Remove(c, st, user, tag).1 == Returned(true)
    ensures Accepts(c, Remove(c, st, user, tag).0, user, e) ==> Accepts(c, st, user, e)
  {
    var doc := Lookup(c, st, user).value;
    RemovedStoresLess(c, doc, tag);
    V.DecisionMonotone(c, RemovedDoc(c, doc, tag).value, doc, Shots(c, e));
  }

  // ---------------------------------------------------------------------------
  // Enrolment reaches verification
  // ---------------------------------------------------------------------------

  lemma SaveThenLookup(c: Settings, st: State, user: string, doc: UserDoc)
    requires ValidUsername(user) && Encodable(doc)
    ensures Save(c, st, user, doc).1 == Returned(true)
    ensures Lookup(c, Save(c, st, user, doc).0, user) == Some(doc)
    ensures Save(c, st, user, doc).0.lockout == st.lockout
  {
  }

  lemma DocumentDecides(c: Settings, st: State, user: string, doc: UserDoc, e: Env)
    requires e.models && Lookup(c, st, user) == Some(doc) && !L.Locked(c, st.lockout, user, e.gate)
    ensures Verdict(c, st, user, e) == V.Decide(c, doc, Shots(c, e))
  {
  }

  /** A pending embedding changes no verdict. For a user enrolled before, it changes
      nothing about verification; a new user still fails, but now on the record. */
  lemma PendingIsInvisible(c: Settings, st: State, user: string, enrolled: Env, e: Env)
    requires Enroll(c, st, user, enrolled).1 == Returned(true)
    ensures var after := Enroll(c, st, user, enrolled).0;
            && Accepts(c, after, user, e) == Accepts(c, st, user, e)
            && (UserFile(c, user) in st.files ==> Verdict(c, after, user, e) == Verdict(c, st, user, e))
            && (UserFile(c, user) !in st.files ==> !Accepts(c, after, user, e))
  {
    var doc := Lookup(c, st, user).GetOr(NewDoc(enrolled.wall));
    EnrolledDecidesAlike(c, doc, Shots(c, enrolled), Shots(c, e));
    SaveThenLookup(c, st, user, EnrolledDoc(doc, Shots(c, enrolled)).value);
    if UserFile(c, user) !in st.files {
      NothingStoredFails(c, NewDoc(enrolled.wall), Shots(c, e));
    }
  }

  lemma EnrolledDecidesAlike(c: Settings, doc: UserDoc, enrolled: seq<Shot>, shots: seq<Shot>)
    requires EnrolledDoc(doc, enrolled).Some?
    ensures V.Decide(c, EnrolledDoc(doc, enrolled).value, shots) == V.Decide(c, doc, shots)
  {
    forall k
      ensures View(EnrolledDoc(doc, enrolled).value, k) == View(doc, k)
    {
      EnrolledKeepsViews(doc, enrolled, k);
    }
    V.DecisionSeesViews(c, doc, EnrolledDoc(doc, enrolled).value, shots);
  }

  lemma NothingStoredFails(c: Settings, doc: UserDoc, shots: seq<Shot>)
    requires forall k :: View(doc, k) == []
    ensures !V.Decide(c, doc, shots).success
  {
    assert forall k :: V.Stored(doc, k) == [];
  }

  /** The embedding an enrolment took for a camera type. */
  function EnrolledVector(c: Settings, enrolled: Env, kind: string): Vector {
    Last(Learned(Shots(c, enrolled), kind))
  }

  /** Every camera takes part and recognises what was enrolled for its type. */
  ghost predicate SeesEnrolled(c: Settings, enrolled: Env, e: Env) {
    forall i :: 0 <= i < |c.cameras| ==>
      var s := Shots(c, e)[i];
      && V.Participates(s) && s.frame.value.faces >= 1
      && c.score(s.frame.value.embedding, EnrolledVector(c, enrolled, s.camera.kind)) >= c.threshold
  }

  lemma EnrolledKinds(c: Settings, doc: UserDoc, enrolled: Env, i: nat)
    requires i < |c.cameras| && EnrolledDoc(doc, Shots(c, enrolled)).Some?
    ensures var after := EnrolledDoc(doc, Shots(c, enrolled)).value;
            var kind := c.cameras[i].kind;
            && kind in PendingKinds(c.cameras, after)
            && after.pending[kind] == EnrolledVector(c, enrolled, kind)
  {
    var shots := Shots(c, enrolled);
    assert shots[i] in shots && Usable(shots[i]);
    assert shots[i].camera.kind in LearnedKinds(shots);
  }

  lemma UpsertStores(v: seq<Labelled>, w: seq<Labelled>, tag: string, data: Vector)
    requires IsUpsert(v, w, tag, data)
    ensures exists i :: 0 <= i < |w| && w[i] == Labelled(tag, data)
  {
    if HasLabel(v, tag) {
      var i :| FirstAt(v, tag, i) && w == v[i := Labelled(tag, data)];
      assert w[i] == Labelled(tag, data);
    } else {
      assert w[|v|] == Labelled(tag, data);
    }
  }

  lemma RecognisedAfterLabelling(c: Settings, doc: UserDoc, tag: string, wall: nat, s: Shot)
    requires LabelledDoc(c, doc, tag, wall).Some? && s.camera.kind in PendingKinds(c.cameras, doc)
    requires V.Participates(s) && s.frame.value.faces >= 1
    requires c.score(s.frame.value.embedding, doc.pending[s.camera.kind]) >= c.threshold
    ensures V.Matches(c, LabelledDoc(c, doc, tag, wall).value, s)
  {
    var after := LabelledDoc(c, doc, tag, wall).value;
    LabelledIsUpsert(c, doc, tag, wall, s.camera.kind);
    UpsertStores(View(doc, s.camera.kind), View(after, s.camera.kind), tag, doc.pending[s.camera.kind]);
    StoredIsRecognised(c, after, s, Labelled(tag, doc.pending[s.camera.kind]));
    V.MatchMeaning(c, after, s);
  }

  lemma StoredIsRecognised(c: Settings, doc: UserDoc, s: Shot, l: Labelled)
    requires s.frame.Some? && l in View(doc, s.camera.kind) && c.score(s.frame.value.embedding, l.data) >= c.threshold
    ensures V.Recognised(c, doc, s)
  {
    var k :| 0 <= k < |View(doc, s.camera.kind)| && View(doc, s.camera.kind)[k] == l;
    assert V.Stored(doc, s.camera.kind)[k] == l.data;
  }

  lemma EnrolledDocumentAccepted(c: Settings, before: UserDoc, tag: string, wall: nat, enrolled: Env, e: Env)
    requires EnrolledDoc(before, Shots(c, enrolled)).Some?
    requires LabelledDoc(c, EnrolledDoc(before, Shots(c, enrolled)).value, tag, wall).Some?
    requires c.cameras != [] && SeesEnrolled(c, enrolled, e)
    ensures var after := LabelledDoc(c, EnrolledDoc(before, Shots(c, enrolled)).value, tag, wall).value;
            V.Decide(c, after, Shots(c, e)).success
  {
    var doc := EnrolledDoc(before, Shots(c, enrolled)).value;
    var after := LabelledDoc(c, doc, tag, wall).value;
    var shots := Shots(c, e);
    forall i | 0 <= i < |shots|
      ensures V.Matches(c, after, shots[i]) && !V.Aborts(c, shots[i])
    {
      EnrolledKinds(c, before, enrolled, i);
      RecognisedAfterLabelling(c, doc, tag, wall, shots[i]);
    }
    assert V.Matches(c, after, shots[0]);
  }

  lemma EnrolledState(c: Settings, st: State, mid: State, user: string, enrolled: Env)
    requires Enroll(c, st, user, enrolled) == (mid, Returned(true))
    ensures var doc := EnrolledDoc(Lookup(c, st, user).GetOr(NewDoc(enrolled.wall)), Shots(c, enrolled));
            doc.Some? && Lookup(c, mid, user) == doc && mid.lockout == st.lockout
  {
    var doc := EnrolledDoc(Lookup(c, st, user).GetOr(NewDoc(enrolled.wall)), Shots(c, enrolled)).value;
    assert (mid, Returned(true)) == Save(c, st, user, doc);
    SaveThenLookup(c, st, user, doc);
  }

  lemma LabelledState(c: Settings, mid: State, after: State, user: string, tag: string, tagged: Env)
    requires SetLabel(c, mid, user, tag, tagged) == (after, Returned(true))
    ensures Lookup(c, mid, user).Some?
    ensures var doc := LabelledDoc(c, Lookup(c, mid, user).value, tag, tagged.wall);
            doc.Some? && Lookup(c, after, user) == doc && after.lockout == mid.lockout
  {
    var doc := LabelledDoc(c, Lookup(c, mid, user).value, tag, tagged.wall).value;
    assert (after, Returned(true)) == Save(c, mid, user, doc);
    SaveThenLookup(c, mid, user, doc);
  }

  /** After an enrolment and its label, the enrolled face is accepted, under every
      policy and whatever else is stored. */
  lemma EnrolmentReachesVerification(c: Settings, st: State, mid: State, after: State, user: string, tag: string,
                                     enrolled: Env, tagged: Env, e: Env)
    requires Enroll(c, st, user, enrolled) == (mid, Returned(true))
    requires SetLabel(c, mid, user, tag, tagged) == (after, Returned(true))
    requires e.models && c.cameras != [] && !L.Locked(c, st.lockout, user, e.gate)
    requires SeesEnrolled(c, enrolled, e)
    ensures Accepts(c, after, user, e)
  {
    EnrolledState(c, st, mid, user, enrolled);
    LabelledState(c, mid, after, user, tag, tagged);
    EnrolledDocumentAccepted(c, Lookup(c, st, user).GetOr(NewDoc(enrolled.wall)), tag, tagged.wall, enrolled, e);
    DocumentDecides(c, after, user, Lookup(c, after, user).value, e);
  }

  /** Every camera sees one face, and everything to be stored is UTF-8. */
  ghost predicate ReadyToEnrol(c: Settings, tag: string, e: Env) {
    && e.models && c.cameras != []
    && (forall i :: 0 <= i < |c.cameras| ==> Usable(Shots(c, e)[i]) && IsUtf8(c.cameras[i].kind))
    && IsUtf8(tag) && IsUtf8(c.modelVersion)
  }

  /** Then a new user can be enrolled, and something can be labelled. */
  lemma NewUserEnrols(c: Settings, st: State, user: string, e: Env)
    requires ValidUsername(user) && UserFile(c, user) !in st.files && ReadyToEnrol(c, "", e)
    ensures Enroll(c, st, user, e).1 == Returned(true) && Enroll(c, st, user, e).0.lockout == st.lockout
    ensures var found := Lookup(c, Enroll(c, st, user, e).0, user);
            found.Some? && forall tag, wall :: LabelledDoc(c, found.value, tag, wall).Some?
  {
    var shots := Shots(c, e);
    assert EnrolledDoc(NewDoc(e.wall), shots).Some?;
    EnrolledEncodable(NewDoc(e.wall), shots);
    var doc := EnrolledDoc(NewDoc(e.wall), shots).value;
    SaveThenLookup(c, st, user, doc);
    EnrolledKinds(c, NewDoc(e.wall), e, 0);
    assert forall k :: View(doc, k) == [];
  }

  /** And the label, if it is UTF-8, is stored. */
  lemma NewUserIsLabelled(c: Settings, st: State, user: string, tag: string, e: Env, tagged: Env)
    returns (mid: State, after: State)
    requires ValidUsername(user) && UserFile(c, user) !in st.files && ReadyToEnrol(c, tag, e)
    ensures Enroll(c, st, user, e) == (mid, Returned(true))
    ensures SetLabel(c, mid, user, tag, tagged) == (after, Returned(true))
    ensures mid.lockout == st.lockout
  {
    NewUserEnrols(c, st, user, e);
    mid := Enroll(c, st, user, e).0;
    LabelledEncodable(c, Lookup(c, mid, user).value, tag, tagged.wall);
    after := SetLabel(c, mid, user, tag, tagged).0;
  }

  /** Each camera type then has one entry, under that label. */
  lemma NewUserViews(c: Settings, st: State, mid: State, after: State, user: string, tag: string, e: Env,
                     tagged: Env, i: nat)
    requires ValidUsername(user) && UserFile(c, user) !in st.files && i < |c.cameras|
    requires Enroll(c, st, user, e) == (mid, Returned(true))
    requires SetLabel(c, mid, user, tag, tagged) == (after, Returned(true))
    ensures var kind := c.cameras[i].kind;
            UserView(c, after, user, kind) == [Labelled(tag, EnrolledVector(c, e, kind))]
  {
    EnrolledState(c, st, mid, user, e);
    LabelledState(c, mid, after, user, tag, tagged);
    EnrolledKinds(c, NewDoc(e.wall), e, i);
    LabelledIsUpsert(c, Lookup(c, mid, user).value, tag, tagged.wall, c.cameras[i].kind);
  }

  /** Cameras of the given types, all mandatory. */
  function ExampleCameras(kinds: seq<string>): (cameras: seq<Camera>)
    ensures |cameras| == |kinds|
    ensures forall i :: 0 <= i < |kinds| ==> cameras[i] == Camera(kinds[i], "/dev/video0", kinds[i], 40, true)
  {
    seq(|kinds|, i requires 0 <= i < |kinds| => Camera(kinds[i], "/dev/video0", kinds[i], 40, true))
  }

  /** A world in which anybody can be enrolled and is recognised afterwards: every camera
      captures one bright face, and every score is 1. */
  lemma ExampleWorld(policy: Policy, kinds: seq<string>, cap: int) returns (c: Settings, e: Env)
    requires kinds != [] && forall i :: 0 <= i < |kinds| ==> Ascii(kinds[i])
    ensures c.policy == policy && c.maxEmbeddings == cap && c.threshold > 0.0
    ensures |c.cameras| == |kinds| && forall i :: 0 <= i < |kinds| ==> c.cameras[i].kind == kinds[i]
    ensures e.models && forall tag :: Ascii(tag) ==> ReadyToEnrol(c, tag, e)
    ensures SeesEnrolled(c, e, e)
  {
    c := Settings(ExampleCameras(kinds), policy, 0.363, cap, 5, 300, "users", "model", (v, w) => 1.0, (v, w) => v);
    e := Env(true, i => Some(Frame(90.0, 1, [1.0])), 0, 0, 0, "", "", "", "");
    assert Ascii(c.modelVersion) && c.threshold <= 1.0;
    ExampleFacts(c, e);
  }

  lemma ExampleFacts(c: Settings, e: Env)
    requires e.models && c.cameras != [] && (forall v, w :: c.score(v, w) >= c.threshold) && Ascii(c.modelVersion)
    requires forall cam | cam in c.cameras :: Ascii(cam.kind) && cam.minBrightness == 40
    requires forall i | 0 <= i < |c.cameras| :: e.frames(i) == Some(Frame(90.0, 1, [1.0]))
    ensures forall tag :: Ascii(tag) ==> ReadyToEnrol(c, tag, e)
    ensures SeesEnrolled(c, e, e)
  {
    forall s | Ascii(s)
      ensures IsUtf8(s)
    {
      AsciiIsUtf8(s);
    }
    assert forall i :: 0 <= i < |c.cameras| ==> c.cameras[i] in c.cameras;
  }

  /** The premises can be met: one camera, one user, and a recogniser that knows the
      face again. */
  lemma EnrolmentExample(policy: Policy)
    returns (c: Settings, st: State, mid: State, after: State, user: string, tag: string, e: Env)
    ensures c.policy == policy && c.threshold > 0.0
    ensures Enroll(c, st, user, e) == (mid, Returned(true))
    ensures SetLabel(c, mid, user, tag, e) == (after, Returned(true))
    ensures e.models && c.cameras != [] && !L.Locked(c, st.lockout, user, e.gate)
    ensures SeesEnrolled(c, e, e)
  {
    c, e := ExampleWorld(policy, ["rgb"], 5);
    st, user, tag := State(map[], map[]), "alice", "home";
    mid, after := NewUserIsLabelled(c, st, user, tag, e, e);
  }
}
