/** What the engine promises for one call, said once more from the outside: in terms of
    files, frames, faces, embeddings and clocks, without the definitions by which the
    operations are specified. */
module Requirements {
  import opened Text
  import opened Utf8
  import opened Domain
  import opened EmbeddingStore
  import opened EngineSpec
  import opened Encoding
  import V = Verification
  import L = Lockout

  // ---------------------------------------------------------------------------
  // Users and their documents
  // ---------------------------------------------------------------------------

  /** The ASCII codes of letters, digits, underscore, dot, dash and dollar. */
  predicate GoodCode(code: int) {
    65 <= code <= 90 || 97 <= code <= 122 || 48 <= code <= 57 || code == 95 || code == 46 || code == 45 || code == 36
  }

  /** 1 to 32 of these characters, no dot in front and no two dots in a row. */
  ghost predicate GoodName(user: string) {
    && 1 <= |user| <= 32 && (forall i :: 0 <= i < |user| ==> GoodCode(user[i] as int))
    && user[0] != '.' && !Contains(user, "..")
  }

  lemma ValidIsGoodName(user: string)
    ensures ValidUsername(user) <==> GoodName(user)
  {
    assert forall ch :: NameChar(ch) <==> GoodCode(ch as int);
    DoubledDot(user);
  }

  lemma DoubledDot(s: string)
    ensures Contains(s, "..") <==> exists i :: 1 <= i < |s| && s[i] == '.' && s[i - 1] == '.'
  {
    if Contains(s, "..") {
      var i, j :| 0 <= i <= j <= |s| && s[i..j] == "..";
      assert s[i..j][0] == s[i] && s[i..j][1] == s[i + 1];
      assert s[i + 1] == '.' && s[i + 1 - 1] == '.';
    }
    if i :| 1 <= i < |s| && s[i] == '.' && s[i - 1] == '.' {
      assert s[i - 1..i + 1] == "..";
    }
  }

  function PathOf(c: Settings, user: string): string {
    c.usersDir + "/" + user + ".json"
  }

  ghost predicate HasFile(c: Settings, st: State, user: string) {
    GoodName(user) && PathOf(c, user) in st.files
  }

  /** The user's file holds a document with nothing but UTF-8 in it. */
  ghost predicate HasDocument(c: Settings, st: State, user: string) {
    && HasFile(c, st, user) && st.files[PathOf(c, user)].Document?
    && AllUtf8(JsonStrings(user, st.files[PathOf(c, user)].doc))
  }

  ghost predicate HasBrokenFile(c: Settings, st: State, user: string) {
    HasFile(c, st, user) && !HasDocument(c, st, user)
  }

  ghost function DocumentOf(c: Settings, st: State, user: string): UserDoc
    requires HasDocument(c, st, user)
  {
    st.files[PathOf(c, user)].doc
  }

  /** What opening a user's file yields. */
  lemma LoadMeaning(c: Settings, st: State, user: string)
    ensures Load(c, st, user).Threw? <==> HasBrokenFile(c, st, user)
    ensures Lookup(c, st, user).Some? <==> HasDocument(c, st, user)
    ensures HasDocument(c, st, user) ==> Lookup(c, st, user) == Some(DocumentOf(c, st, user))
    ensures Broken(c, st, user) <==> HasBrokenFile(c, st, user)
  {
    ValidIsGoodName(user);
    if HasFile(c, st, user) && st.files[PathOf(c, user)].Document? {
      EncodableIsUtf8(user, st.files[PathOf(c, user)].doc);
    }
  }

  // ---------------------------------------------------------------------------
  // Verification
  // ---------------------------------------------------------------------------

  /** `v` is among the embeddings a face of this camera type is compared with. */
  ghost predicate Keeps(doc: UserDoc, kind: string, v: Vector) {
    if kind in doc.arrays then exists i :: 0 <= i < |doc.arrays[kind]| && doc.arrays[kind][i].data == v
    else kind in doc.legacy && doc.legacy[kind] == v
  }

  lemma KeptAreStored(doc: UserDoc, kind: string, v: Vector)
    ensures Keeps(doc, kind, v) <==> exists k :: 0 <= k < |V.Stored(doc, kind)| && V.Stored(doc, kind)[k] == v
  {
    if kind in doc.arrays {
      assert forall i :: 0 <= i < |doc.arrays[kind]| ==> V.Stored(doc, kind)[i] == doc.arrays[kind][i].data;
    } else if kind in doc.legacy {
      assert V.Stored(doc, kind)[0] == doc.legacy[kind];
    }
  }

  /** Camera `i` delivered a frame that is bright enough for it. */
  predicate Sees(c: Settings, e: Env, i: nat)
    requires i < |c.cameras|
  {
    && e.frames(i).Some?
    && (c.cameras[i].minBrightness <= 0 || e.frames(i).value.brightness >= c.cameras[i].minBrightness as real)
  }

  /** It shows a face that scores at least the threshold against a kept embedding, where a
      score below 0 counts as 0. */
  ghost predicate Recognises(c: Settings, doc: UserDoc, e: Env, i: nat)
    requires i < |c.cameras|
  {
    && Sees(c, e, i) && e.frames(i).value.faces >= 1
    && exists v :: Keeps(doc, c.cameras[i].kind, v)
                   && (c.score(e.frames(i).value.embedding, v) >= c.threshold || 0.0 >= c.threshold)
  }

  ghost predicate PolicyAccepts(c: Settings, doc: UserDoc, e: Env) {
    match c.policy
    case StrictAll =>
      && (forall i :: 0 <= i < |c.cameras| ==> e.frames(i).Some?)
      && (exists i :: 0 <= i < |c.cameras| && Sees(c, e, i))
      && (forall i :: 0 <= i < |c.cameras| && Sees(c, e, i) ==> Recognises(c, doc, e, i))
    case LenientAny =>
      exists i :: 0 <= i < |c.cameras| && Recognises(c, doc, e, i)
    case Adaptive =>
      && (forall i :: 0 <= i < |c.cameras| && c.cameras[i].mandatory ==> Sees(c, e, i))
      && (exists i :: 0 <= i < |c.cameras| && Recognises(c, doc, e, i))
  }

  lemma RecognisesIsMatch(c: Settings, doc: UserDoc, e: Env, i: nat)
    requires i < |c.cameras|
    ensures Sees(c, e, i) <==> V.Participates(Shots(c, e)[i])
    ensures Recognises(c, doc, e, i) <==> V.Succeeds(c, doc, Shots(c, e)[i])
  {
    var s := Shots(c, e)[i];
    if Sees(c, e, i) {
      var refs := V.Stored(doc, s.camera.kind);
      forall v
        ensures Keeps(doc, s.camera.kind, v) <==> exists k :: 0 <= k < |refs| && refs[k] == v
      {
        KeptAreStored(doc, s.camera.kind, v);
      }
      if V.Recognised(c, doc, s) {
        var k :| 0 <= k < |refs| && V.Floored(c.score(s.frame.value.embedding, refs[k])) >= c.threshold;
        assert Keeps(doc, s.camera.kind, refs[k]);
      }
      if Recognises(c, doc, e, i) {
        var v :| Keeps(doc, s.camera.kind, v)
            && (c.score(s.frame.value.embedding, v) >= c.threshold || 0.0 >= c.threshold);
        var k :| 0 <= k < |refs| && refs[k] == v;
        assert V.Floored(c.score(s.frame.value.embedding, refs[k])) >= c.threshold;
      }
    }
  }

  lemma ShotsMeaning(c: Settings, doc: UserDoc, e: Env)
    ensures forall i :: 0 <= i < |c.cameras| ==> (Sees(c, e, i) <==> V.Participates(Shots(c, e)[i]))
    ensures forall i :: 0 <= i < |c.cameras| ==> (Recognises(c, doc, e, i) <==> V.Succeeds(c, doc, Shots(c, e)[i]))
  {
    forall i | 0 <= i < |c.cameras|
      ensures Sees(c, e, i) <==> V.Participates(Shots(c, e)[i])
      ensures Recognises(c, doc, e, i) <==> V.Succeeds(c, doc, Shots(c, e)[i])
    {
      RecognisesIsMatch(c, doc, e, i);
    }
  }

  lemma StrictDecision(c: Settings, doc: UserDoc, e: Env)
    requires c.policy == StrictAll
    ensures V.Decide(c, doc, Shots(c, e)).success <==> PolicyAccepts(c, doc, e)
  {
    ShotsMeaning(c, doc, e);
    V.StrictMeaning(c, doc, Shots(c, e));
  }

  lemma LenientDecision(c: Settings, doc: UserDoc, e: Env)
    requires c.policy == LenientAny
    ensures V.Decide(c, doc, Shots(c, e)).success <==> PolicyAccepts(c, doc, e)
  {
    ShotsMeaning(c, doc, e);
    V.LenientMeaning(c, doc, Shots(c, e));
  }

  lemma AdaptiveDecision(c: Settings, doc: UserDoc, e: Env)
    requires c.policy == Adaptive
    ensures V.Decide(c, doc, Shots(c, e)).success <==> PolicyAccepts(c, doc, e)
  {
    ShotsMeaning(c, doc, e);
    V.AdaptiveMeaning(c, doc, Shots(c, e));
  }

  ghost predicate LockedAt(c: Settings, st: State, user: string, now: nat) {
    c.lockoutAttempts > 0 && user in st.lockout && now < st.lockout[user].until
  }

  /** Verification gets as far as the cameras. */
  ghost predicate Reaches(c: Settings, st: State, user: string, e: Env) {
    e.models && HasDocument(c, st, user) && !LockedAt(c, st, user, e.gate)
  }

  lemma ReachesIsAttempted(c: Settings, st: State, user: string, e: Env)
    ensures Reaches(c, st, user, e) <==> Attempted(c, st, user, e)
  {
    LoadMeaning(c, st, user);
  }

  /** The call throws exactly on a broken file it gets to open, and otherwise succeeds
      exactly when the policy accepts what the cameras see of a user who has a document
      and is not locked. */
  lemma VerifyMeaning(c: Settings, st: State, user: string, e: Env)
    ensures Verify(c, st, user, e).1.Threw? <==>
            e.models && HasBrokenFile(c, st, user) && !LockedAt(c, st, user, e.gate)
    ensures Verify(c, st, user, e).1.Returned? && Verify(c, st, user, e).1.value.success <==>
            Reaches(c, st, user, e) && PolicyAccepts(c, DocumentOf(c, st, user), e)
  {
    LoadMeaning(c, st, user);
    ReachesIsAttempted(c, st, user, e);
    if Reaches(c, st, user, e) {
      var doc := DocumentOf(c, st, user);
      match c.policy
      case StrictAll => StrictDecision(c, doc, e);
      case LenientAny => LenientDecision(c, doc, e);
      case Adaptive => AdaptiveDecision(c, doc, e);
    }
  }

  /** A camera whose frame is missing, or too dark under the adaptive policy, ends the
      attempt if the policy depends on it. */
  ghost predicate GivesUp(c: Settings, e: Env) {
    match c.policy
    case StrictAll => exists i :: 0 <= i < |c.cameras| && e.frames(i).None?
    case LenientAny => false
    case Adaptive => exists i :: 0 <= i < |c.cameras| && c.cameras[i].mandatory && !Sees(c, e, i)
  }

  lemma GivesUpIsAborts(c: Settings, doc: UserDoc, e: Env)
    ensures GivesUp(c, e) <==> V.SomeAborts(c, Shots(c, e))
  {
    ShotsMeaning(c, doc, e);
    assert V.SomeAborts(c, Shots(c, e)) <==> exists i :: 0 <= i < |c.cameras| && V.Aborts(c, Shots(c, e)[i]);
  }

  /** Camera `i` compares a face with the kept embedding `v`. */
  ghost predicate Compares(c: Settings, doc: UserDoc, e: Env, i: nat, v: Vector)
    requires i < |c.cameras|
  {
    Sees(c, e, i) && e.frames(i).value.faces >= 1 && Keeps(doc, c.cameras[i].kind, v)
  }

  /** `best` is the largest score of any comparison, or 0 if that is larger. */
  ghost predicate IsBest(c: Settings, doc: UserDoc, e: Env, best: real) {
    && best >= 0.0
    && (forall i: nat, v :: i < |c.cameras| && Compares(c, doc, e, i, v) ==>
          c.score(e.frames(i).value.embedding, v) <= best)
    && (best == 0.0 || exists i: nat, v :: i < |c.cameras| && Compares(c, doc, e, i, v)
                                           && c.score(e.frames(i).value.embedding, v) == best)
  }

  lemma ShotScoreBounds(c: Settings, doc: UserDoc, e: Env, i: nat)
    requires i < |c.cameras|
    ensures var score := V.ShotScore(c, doc, Shots(c, e)[i]);
            && (forall v :: Compares(c, doc, e, i, v) ==> c.score(e.frames(i).value.embedding, v) <= score)
            && (score == 0.0 || exists v :: Compares(c, doc, e, i, v)
                                            && c.score(e.frames(i).value.embedding, v) == score)
  {
    var s := Shots(c, e)[i];
    var refs := V.Stored(doc, s.camera.kind);
    RecognisesIsMatch(c, doc, e, i);
    forall v
      ensures Keeps(doc, s.camera.kind, v) <==> exists k :: 0 <= k < |refs| && refs[k] == v
    {
      KeptAreStored(doc, s.camera.kind, v);
    }
    if V.Comparable(doc, s) {
      V.BestMatchIsMaximum(c, s.frame.value.embedding, refs);
      var best := V.BestMatch(c, s.frame.value.embedding, refs);
      if best != 0.0 {
        var k :| 0 <= k < |refs| && c.score(s.frame.value.embedding, refs[k]) == best;
        assert Compares(c, doc, e, i, refs[k]);
      }
    }
  }

  lemma BestScoreIsBest(c: Settings, doc: UserDoc, e: Env)
    ensures IsBest(c, doc, e, V.BestScore(c, doc, Shots(c, e)))
  {
    var shots := Shots(c, e);
    var best := V.BestScore(c, doc, shots);
    V.BestScoreIsMaximum(c, doc, shots);
    forall i: nat, v | i < |c.cameras| && Compares(c, doc, e, i, v)
      ensures c.score(e.frames(i).value.embedding, v) <= best
    {
      ShotScoreBounds(c, doc, e, i);
      assert V.ShotScore(c, doc, shots[i]) <= best;
    }
    if best != 0.0 {
      var i: int :| 0 <= i < |shots| && V.ShotScore(c, doc, shots[i]) == best;
      ShotScoreBounds(c, doc, e, i);
    }
  }

  /** The reported score is that of the best comparison, and 0 for an attempt that ended
      before all cameras were seen. */
  lemma VerifyScore(c: Settings, st: State, user: string, e: Env)
    requires Verify(c, st, user, e).1.Returned?
    ensures var best := Verify(c, st, user, e).1.value.best;
            if Reaches(c, st, user, e) && !GivesUp(c, e) then IsBest(c, DocumentOf(c, st, user), e, best)
            else best == 0.0
  {
    LoadMeaning(c, st, user);
    ReachesIsAttempted(c, st, user, e);
    if Reaches(c, st, user, e) {
      GivesUpIsAborts(c, DocumentOf(c, st, user), e);
      BestScoreIsBest(c, DocumentOf(c, st, user), e);
    }
  }

  /** `after` is `before` with one more attempt of `user` entered: a success clears the
      count and the lock, a failure counts, and from the N-th on locks for the configured
      number of seconds. */
  ghost predicate Entered(c: Settings, before: map<string, LockoutState>, after: map<string, LockoutState>,
                          user: string, success: bool, now: nat) {
    if c.lockoutAttempts <= 0 then after == before
    else
      var old' := if user in before then before[user] else LockoutState(0, 0);
      && after.Keys == before.Keys + {user}
      && (forall other :: other in before && other != user ==> after[other] == before[other])
      && (success ==> after[user] == LockoutState(0, 0))
      && (!success ==> after[user].failed == old'.failed + 1)
      && (!success && old'.failed + 1 < c.lockoutAttempts ==> after[user].until == old'.until)
      && (!success && old'.failed + 1 >= c.lockoutAttempts ==>
            after[user].until == now + c.lockoutDurationSec * 1_000_000_000)
  }

  lemma RecordEnters(c: Settings, m: map<string, LockoutState>, user: string, success: bool, now: nat)
    ensures Entered(c, m, L.Record(c, m, user, success, now), user, success, now)
  {
  }

  /** What is entered is what was replied, and exactly attempts that were not ended early
      and in which a camera saw something are entered; files never change. */
  lemma VerifyRecords(c: Settings, st: State, user: string, e: Env)
    ensures var (after, outcome) := Verify(c, st, user, e);
            && after.files == st.files
            && if Reaches(c, st, user, e) && !GivesUp(c, e) && (exists i :: 0 <= i < |c.cameras| && Sees(c, e, i)) then
                 outcome.Returned?
                 && Entered(c, st.lockout, after.lockout, user, outcome.value.success, e.stamp)
               else after == st
  {
    LoadMeaning(c, st, user);
    ReachesIsAttempted(c, st, user, e);
    if Reaches(c, st, user, e) {
      var doc := DocumentOf(c, st, user);
      GivesUpIsAborts(c, doc, e);
      ShotsMeaning(c, doc, e);
      assert V.SomeParticipates(Shots(c, e)) <==> exists i :: 0 <= i < |c.cameras| && V.Participates(Shots(c, e)[i]);
      RecordEnters(c, st.lockout, user, Verdict(c, st, user, e).success, e.stamp);
    }
  }
}
