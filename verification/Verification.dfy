/** The verification decision, stated over the shots as a whole: no order, no
    counters, no early exits. The engine's camera loop is proved to compute it. */
module Verification {
  import opened Domain
  import opened EmbeddingStore

  /** Outcome of the camera loop: whether the attempt is recorded for lockout, the
      verdict, and the reported score. */
  datatype Decision = Decision(recorded: bool, success: bool, best: real)

  function Vectors(v: seq<Labelled>): (vs: seq<Vector>)
    ensures |vs| == |v| && forall i :: 0 <= i < |v| ==> vs[i] == v[i].data
  {
    seq(|v|, i requires 0 <= i < |v| => v[i].data)
  }

  /** The stored embeddings a camera of this type is compared with. */
  function Stored(doc: UserDoc, kind: string): seq<Vector> {
    Vectors(View(doc, kind))
  }

  predicate Dark(s: Shot) {
    s.frame.Some? && s.camera.minBrightness > 0 && s.frame.value.brightness < s.camera.minBrightness as real
  }

  predicate Participates(s: Shot) {
    s.frame.Some? && !Dark(s)
  }

  /** The shot ends the whole attempt. */
  predicate Aborts(c: Settings, s: Shot) {
    || (c.policy == StrictAll && s.frame.None?)
    || (c.policy == Adaptive && s.camera.mandatory && !Participates(s))
  }

  /** The shot reaches the comparison with stored embeddings. */
  predicate Comparable(doc: UserDoc, s: Shot) {
    Participates(s) && Stored(doc, s.camera.kind) != [] && s.frame.value.faces >= 1
  }

  /** Running maximum of the scores of `v` against `refs`, floored at 0. */
  function BestMatch(c: Settings, v: Vector, refs: seq<Vector>): real {
    if refs == [] then 0.0
    else
      var rest := BestMatch(c, v, refs[..|refs| - 1]);
      var score := c.score(v, refs[|refs| - 1]);
      if score > rest then score else rest
  }

  function ShotScore(c: Settings, doc: UserDoc, s: Shot): real {
    if Comparable(doc, s) then BestMatch(c, s.frame.value.embedding, Stored(doc, s.camera.kind)) else 0.0
  }

  predicate Matches(c: Settings, doc: UserDoc, s: Shot) {
    Comparable(doc, s) && ShotScore(c, doc, s) >= c.threshold
  }

  function BestScore(c: Settings, doc: UserDoc, shots: seq<Shot>): real {
    if shots == [] then 0.0
    else
      var rest := BestScore(c, doc, shots[..|shots| - 1]);
      var score := ShotScore(c, doc, shots[|shots| - 1]);
      if score > rest then score else rest
  }

  ghost predicate SomeParticipates(shots: seq<Shot>) {
    exists i :: 0 <= i < |shots| && Participates(shots[i])
  }

  ghost predicate SomeMatches(c: Settings, doc: UserDoc, shots: seq<Shot>) {
    exists i :: 0 <= i < |shots| && Matches(c, doc, shots[i])
  }

  ghost predicate SomeFails(c: Settings, doc: UserDoc, shots: seq<Shot>) {
    exists i :: 0 <= i < |shots| && Participates(shots[i]) && !Matches(c, doc, shots[i])
  }

  ghost predicate SomeAborts(c: Settings, shots: seq<Shot>) {
    exists i :: 0 <= i < |shots| && Aborts(c, shots[i])
  }

  ghost function Decide(c: Settings, doc: UserDoc, shots: seq<Shot>): Decision {
    if SomeAborts(c, shots) then Decision(false, false, 0.0)
    else
      Decision(
        SomeParticipates(shots),
        SomeMatches(c, doc, shots) && (c.policy == StrictAll ==> !SomeFails(c, doc, shots)),
        BestScore(c, doc, shots))
  }

  // ---------------------------------------------------------------------------
  // What the running maxima are
  // ---------------------------------------------------------------------------

  lemma {:induction false} BestMatchIsMaximum(c: Settings, v: Vector, refs: seq<Vector>)
    ensures BestMatch(c, v, refs) >= 0.0
    ensures forall i :: 0 <= i < |refs| ==> c.score(v, refs[i]) <= BestMatch(c, v, refs)
    ensures BestMatch(c, v, refs) == 0.0 || exists i :: 0 <= i < |refs| && c.score(v, refs[i]) == BestMatch(c, v, refs)
  {
    if refs != [] {
      var n := |refs| - 1;
      BestMatchIsMaximum(c, v, refs[..n]);
      assert forall i :: 0 <= i < n ==> refs[..n][i] == refs[i];
    }
  }

  lemma {:induction false} BestScoreIsMaximum(c: Settings, doc: UserDoc, shots: seq<Shot>)
    ensures BestScore(c, doc, shots) >= 0.0
    ensures forall i :: 0 <= i < |shots| ==> ShotScore(c, doc, shots[i]) <= BestScore(c, doc, shots)
    ensures BestScore(c, doc, shots) == 0.0 ||
            exists i :: 0 <= i < |shots| && ShotScore(c, doc, shots[i]) == BestScore(c, doc, shots)
  {
    if shots != [] {
      var n := |shots| - 1;
      BestScoreIsMaximum(c, doc, shots[..n]);
      assert forall i :: 0 <= i < n ==> shots[..n][i] == shots[i];
    }
  }

  function Floored(score: real): real {
    if score > 0.0 then score else 0.0
  }

  /** Some stored embedding of `s`'s type scores at least the threshold, with scores
      floored at 0: at a threshold of 0 or below any stored embedding will do. */
  ghost predicate Recognised(c: Settings, doc: UserDoc, s: Shot)
    requires s.frame.Some?
  {
    var refs := Stored(doc, s.camera.kind);
    exists i :: 0 <= i < |refs| && Floored(c.score(s.frame.value.embedding, refs[i])) >= c.threshold
  }

  /** A bright shot matches iff it shows a face that some stored embedding recognises. */
  lemma MatchMeaning(c: Settings, doc: UserDoc, s: Shot)
    requires Participates(s)
    ensures Matches(c, doc, s) <==> s.frame.value.faces >= 1 && Recognised(c, doc, s)
  {
    var v, refs := s.frame.value.embedding, Stored(doc, s.camera.kind);
    BestMatchIsMaximum(c, v, refs);
    if Comparable(doc, s) && BestMatch(c, v, refs) == 0.0 {
      assert c.score(v, refs[0]) <= 0.0;
      assert Floored(c.score(v, refs[0])) == 0.0;
    }
  }

  // ---------------------------------------------------------------------------
  // Exact meaning of the policies
  // ---------------------------------------------------------------------------

  /** STRICT_ALL: every camera captured, some frame was bright enough, and every
      bright frame was recognised. A dark camera is skipped. */
  lemma StrictMeaning(c: Settings, doc: UserDoc, shots: seq<Shot>)
    requires c.policy == StrictAll
    ensures Decide(c, doc, shots).success <==>
            && (forall i :: 0 <= i < |shots| ==> shots[i].frame.Some?)
            && (exists i :: 0 <= i < |shots| && Participates(shots[i]))
            && (forall i :: 0 <= i < |shots| && Participates(shots[i]) ==>
                  shots[i].frame.value.faces >= 1 && Recognised(c, doc, shots[i]))
  {
    forall i | 0 <= i < |shots| && Participates(shots[i])
      ensures Matches(c, doc, shots[i]) <==> shots[i].frame.value.faces >= 1 && Recognised(c, doc, shots[i])
    {
      MatchMeaning(c, doc, shots[i]);
    }
    if SomeMatches(c, doc, shots) {
      var i :| 0 <= i < |shots| && Matches(c, doc, shots[i]);
      assert Participates(shots[i]);
    }
    assert SomeAborts(c, shots) <==> exists i :: 0 <= i < |shots| && shots[i].frame.None?;
  }

  /** A bright frame shows a face that is recognised. */
  ghost predicate Succeeds(c: Settings, doc: UserDoc, s: Shot) {
    Participates(s) && s.frame.value.faces >= 1 && Recognised(c, doc, s)
  }

  lemma SucceedsIsMatches(c: Settings, doc: UserDoc, s: Shot)
    ensures Succeeds(c, doc, s) <==> Matches(c, doc, s)
  {
    if Participates(s) {
      MatchMeaning(c, doc, s);
    }
  }

  ghost predicate SomeSucceeds(c: Settings, doc: UserDoc, shots: seq<Shot>) {
    exists i :: 0 <= i < |shots| && Succeeds(c, doc, shots[i])
  }

  lemma SomeMatchMeaning(c: Settings, doc: UserDoc, shots: seq<Shot>)
    ensures SomeMatches(c, doc, shots) <==> SomeSucceeds(c, doc, shots)
  {
    forall i | 0 <= i < |shots|
      ensures Succeeds(c, doc, shots[i]) <==> Matches(c, doc, shots[i])
    {
      SucceedsIsMatches(c, doc, shots[i]);
    }
  }

  /** LENIENT_ANY: some camera recognised a face; failing and dark cameras do not count. */
  lemma LenientMeaning(c: Settings, doc: UserDoc, shots: seq<Shot>)
    requires c.policy == LenientAny
    ensures Decide(c, doc, shots).success <==> SomeSucceeds(c, doc, shots)
  {
    SomeMatchMeaning(c, doc, shots);
  }

  /** ADAPTIVE: every mandatory camera captured a bright enough frame, and some camera,
      mandatory or not, recognised a face. */
  lemma AdaptiveMeaning(c: Settings, doc: UserDoc, shots: seq<Shot>)
    requires c.policy == Adaptive
    ensures Decide(c, doc, shots).success <==>
            && (forall i :: 0 <= i < |shots| && shots[i].camera.mandatory ==> shots[i].frame.Some? && !Dark(shots[i]))
            && SomeSucceeds(c, doc, shots)
  {
    SomeMatchMeaning(c, doc, shots);
    assert SomeAborts(c, shots) <==>
           exists i :: 0 <= i < |shots| && shots[i].camera.mandatory && !Participates(shots[i]);
  }

  /** LENIENT_ANY and ADAPTIVE: without an aborting camera the verdict is whether the
      reported score reaches the threshold; at a threshold of 0 or below, the score
      says nothing and the verdict is whether any camera compared a face at all. */
  lemma AnyCameraMeaning(c: Settings, doc: UserDoc, shots: seq<Shot>)
    requires c.policy != StrictAll && !SomeAborts(c, shots)
    ensures Decide(c, doc, shots).success <==>
            && Decide(c, doc, shots).best >= c.threshold
            && (c.threshold > 0.0 || exists i :: 0 <= i < |shots| && Comparable(doc, shots[i]))
  {
    BestScoreIsMaximum(c, doc, shots);
    forall i | 0 <= i < |shots| && Comparable(doc, shots[i])
      ensures ShotScore(c, doc, shots[i]) >= 0.0
    {
      BestMatchIsMaximum(c, shots[i].frame.value.embedding, Stored(doc, shots[i].camera.kind));
    }
    if BestScore(c, doc, shots) >= c.threshold > 0.0 {
      var i :| 0 <= i < |shots| && ShotScore(c, doc, shots[i]) == BestScore(c, doc, shots);
      assert Matches(c, doc, shots[i]);
    }
  }

  // ---------------------------------------------------------------------------
  // The documented policies
  // ---------------------------------------------------------------------------

  /** STRICT_ALL as documented: all cameras capture, pass the brightness check and
      match. */
  ghost predicate DocumentedStrict(c: Settings, doc: UserDoc, shots: seq<Shot>) {
    shots != [] && forall i :: 0 <= i < |shots| ==> Succeeds(c, doc, shots[i])
  }

  /** The code never rejects what the documentation accepts, and it accepts more exactly
      when it skips a dark frame on its way to accepting. */
  lemma StrictVersusDocumented(c: Settings, doc: UserDoc, shots: seq<Shot>)
    requires c.policy == StrictAll
    ensures DocumentedStrict(c, doc, shots) ==> Decide(c, doc, shots).success
    ensures Decide(c, doc, shots).success ==>
              (DocumentedStrict(c, doc, shots) <==> forall i :: 0 <= i < |shots| ==> !Dark(shots[i]))
  {
    StrictMeaning(c, doc, shots);
    if DocumentedStrict(c, doc, shots) {
      assert Participates(shots[0]);
    }
  }

  /** ADAPTIVE as documented for the `mandatory` option: every mandatory camera captures
      a bright frame and matches, the others need not, and some camera matches. */
  ghost predicate DocumentedAdaptive(c: Settings, doc: UserDoc, shots: seq<Shot>) {
    && (forall i :: 0 <= i < |shots| && shots[i].camera.mandatory ==> Succeeds(c, doc, shots[i]))
    && SomeSucceeds(c, doc, shots)
  }

  /** The code never rejects what the documentation accepts, and it accepts more exactly
      when a mandatory camera takes part without a match. */
  lemma AdaptiveVersusDocumented(c: Settings, doc: UserDoc, shots: seq<Shot>)
    requires c.policy == Adaptive
    ensures DocumentedAdaptive(c, doc, shots) ==> Decide(c, doc, shots).success
    ensures Decide(c, doc, shots).success ==>
              (DocumentedAdaptive(c, doc, shots) <==>
               forall i :: 0 <= i < |shots| && shots[i].camera.mandatory && Participates(shots[i]) ==>
                 Matches(c, doc, shots[i]))
  {
    forall i | 0 <= i < |shots|
      ensures Succeeds(c, doc, shots[i]) <==> Matches(c, doc, shots[i])
    {
      SucceedsIsMatches(c, doc, shots[i]);
    }
  }

  /** ADAPTIVE as documented for camera types: cameras of type "ir" capture and match,
      and every other camera matches if it takes part. */
  ghost predicate DocumentedByType(c: Settings, doc: UserDoc, shots: seq<Shot>) {
    && (exists i :: 0 <= i < |shots| && Participates(shots[i]))
    && (forall i :: 0 <= i < |shots| && (shots[i].camera.kind == "ir" || Participates(shots[i])) ==>
          Succeeds(c, doc, shots[i]))
  }

  /** Here neither accepts all that the other does: the code also accepts when some camera
      took part without a match or an "ir" camera took no part, and also rejects when a
      mandatory camera took no part. */
  lemma AdaptiveVersusTypes(c: Settings, doc: UserDoc, shots: seq<Shot>)
    requires c.policy == Adaptive
    ensures Decide(c, doc, shots).success ==>
              (DocumentedByType(c, doc, shots) <==>
               && !SomeFails(c, doc, shots)
               && forall i :: 0 <= i < |shots| && shots[i].camera.kind == "ir" ==> Participates(shots[i]))
    ensures DocumentedByType(c, doc, shots) ==>
              (Decide(c, doc, shots).success <==>
               forall i :: 0 <= i < |shots| && shots[i].camera.mandatory ==> Participates(shots[i]))
  {
    forall i | 0 <= i < |shots|
      ensures Succeeds(c, doc, shots[i]) <==> Matches(c, doc, shots[i])
    {
      SucceedsIsMatches(c, doc, shots[i]);
    }
    assert Decide(c, doc, shots).success ==> SomeMatches(c, doc, shots);
    assert forall i :: 0 <= i < |shots| && Matches(c, doc, shots[i]) ==> Participates(shots[i]);
    assert SomeAborts(c, shots) <==> exists i :: 0 <= i < |shots| && Aborts(c, shots[i]);
  }

  /** Two cameras in front of the same enrolled face, one of them unfit: too dark, or
      mandatory and without a face. Both policies accept. */
  lemma DocumentationIsStricter(policy: Policy) returns (c: Settings, doc: UserDoc, shots: seq<Shot>)
    requires policy != LenientAny
    ensures c.policy == policy && c.threshold > 0.0 && Decide(c, doc, shots).success
    ensures policy == StrictAll ==> !DocumentedStrict(c, doc, shots)
    ensures policy == Adaptive ==> !DocumentedAdaptive(c, doc, shots) && !DocumentedByType(c, doc, shots)
  {
    var ir := Camera("ir", "/dev/video2", "ir", if policy == StrictAll then 40 else 0, true);
    var rgb := Camera("rgb", "/dev/video0", "rgb", 0, false);
    c := Settings([ir, rgb], policy, 0.363, 5, 5, 300, "users", "model", (v, w) => 1.0, (v, w) => v);
    doc := UserDoc(None, map[], map["rgb" := [1.0]], map[]);
    var unfit, fit := Shot(ir, Some(Frame(10.0, 0, []))), Shot(rgb, Some(Frame(90.0, 1, [1.0])));
    shots := [unfit, fit];
    assert Stored(doc, "rgb")[0] == [1.0];
    assert Floored(c.score([1.0], [1.0])) == 1.0;
    assert Recognised(c, doc, fit);
    MatchMeaning(c, doc, fit);
    assert shots[0] == unfit && shots[1] == fit;
    assert Matches(c, doc, shots[1]);
    if policy == StrictAll {
      StrictMeaning(c, doc, shots);
      StrictVersusDocumented(c, doc, shots);
      assert Dark(shots[0]);
    } else {
      AdaptiveMeaning(c, doc, shots);
      AdaptiveVersusDocumented(c, doc, shots);
      assert Participates(shots[0]) && !Matches(c, doc, shots[0]);
    }
  }

  /** A recognised face in front of the "ir" camera, while a mandatory camera of another
      type is too dark: acceptable by type, and rejected. */
  lemma CodeIsStricter() returns (c: Settings, doc: UserDoc, shots: seq<Shot>)
    ensures c.policy == Adaptive && c.threshold > 0.0
    ensures DocumentedByType(c, doc, shots) && !Decide(c, doc, shots).success
  {
    var ir := Camera("ir", "/dev/video2", "ir", 0, false);
    var rgb := Camera("rgb", "/dev/video0", "rgb", 40, true);
    c := Settings([ir, rgb], Adaptive, 0.363, 5, 5, 300, "users", "model", (v, w) => 1.0, (v, w) => v);
    doc := UserDoc(None, map[], map["ir" := [1.0]], map[]);
    var fit, dark := Shot(ir, Some(Frame(90.0, 1, [1.0]))), Shot(rgb, Some(Frame(10.0, 0, [])));
    shots := [fit, dark];
    assert Stored(doc, "ir")[0] == [1.0];
    assert Floored(c.score([1.0], [1.0])) == 1.0;
    assert Recognised(c, doc, fit);
    assert shots[0] == fit && shots[1] == dark;
    assert Succeeds(c, doc, shots[0]) && Dark(shots[1]);
    assert Aborts(c, shots[1]);
  }

  /** With a threshold of 0 an unrecognised face is accepted whatever its score. */
  lemma ZeroThresholdAcceptsAnyFace(c: Settings, doc: UserDoc, s: Shot)
    requires c.threshold <= 0.0 && Comparable(doc, s)
    ensures Matches(c, doc, s)
  {
    MatchMeaning(c, doc, s);
  }

  lemma PolicyComparison(c: Settings, doc: UserDoc, shots: seq<Shot>)
    ensures var strict := Decide(c.(policy := StrictAll), doc, shots).success;
            var lenient := Decide(c.(policy := LenientAny), doc, shots).success;
            var adaptive := Decide(c.(policy := Adaptive), doc, shots).success;
            && (strict ==> lenient) && (adaptive ==> lenient)
            && (strict ==>
                  (adaptive <==> forall i :: 0 <= i < |shots| && shots[i].camera.mandatory ==> !Dark(shots[i])))
  {
    var s, l, a := c.(policy := StrictAll), c.(policy := LenientAny), c.(policy := Adaptive);
    SameSettings(s, l, doc);
    SameSettings(a, l, doc);
    if Decide(s, doc, shots).success {
      assert forall i :: 0 <= i < |shots| ==> !Aborts(s, shots[i]);
      assert SomeAborts(a, shots) <==> exists i :: 0 <= i < |shots| && Aborts(a, shots[i]);
    }
  }

  lemma {:induction false} BestMatchSame(c: Settings, d: Settings, v: Vector, refs: seq<Vector>)
    requires c.score == d.score
    ensures BestMatch(c, v, refs) == BestMatch(d, v, refs)
  {
    if refs != [] {
      BestMatchSame(c, d, v, refs[..|refs| - 1]);
    }
  }

  /** Of the settings, a shot's score and match see only threshold and scoring. */
  lemma SameSettings(c: Settings, d: Settings, doc: UserDoc)
    requires c.threshold == d.threshold && c.score == d.score
    ensures forall s :: ShotScore(c, doc, s) == ShotScore(d, doc, s)
    ensures forall s :: Matches(c, doc, s) <==> Matches(d, doc, s)
  {
    forall s
      ensures ShotScore(c, doc, s) == ShotScore(d, doc, s)
    {
      if Comparable(doc, s) {
        BestMatchSame(c, d, s.frame.value.embedding, Stored(doc, s.camera.kind));
      }
    }
  }

  // ---------------------------------------------------------------------------
  // Independence and monotonicity
  // ---------------------------------------------------------------------------

  lemma {:induction false} BestScoreSame(c: Settings, d: Settings, doc: UserDoc, shots: seq<Shot>)
    requires c.threshold == d.threshold && c.score == d.score
    ensures BestScore(c, doc, shots) == BestScore(d, doc, shots)
  {
    if shots != [] {
      SameSettings(c, d, doc);
      BestScoreSame(c, d, doc, shots[..|shots| - 1]);
    }
  }

  /** The configured camera list itself plays no part in the decision. */
  lemma DecideIgnoresCameraList(c: Settings, cameras: seq<Camera>, doc: UserDoc, shots: seq<Shot>)
    ensures Decide(c.(cameras := cameras), doc, shots) == Decide(c, doc, shots)
  {
    var d := c.(cameras := cameras);
    SameSettings(c, d, doc);
    BestScoreSame(c, d, doc, shots);
    assert forall i :: 0 <= i < |shots| ==> (Aborts(c, shots[i]) <==> Aborts(d, shots[i]));
  }

  lemma LowerThresholdMatches(c: Settings, t: real, doc: UserDoc, s: Shot)
    requires t <= c.threshold && Matches(c, doc, s)
    ensures Matches(c.(threshold := t), doc, s)
  {
    BestMatchSame(c, c.(threshold := t), s.frame.value.embedding, Stored(doc, s.camera.kind));
  }

  /** A lower threshold is laxer, not stricter: under every policy it keeps every accept. */
  lemma LowerThresholdAdmitsMore(c: Settings, t: real, doc: UserDoc, shots: seq<Shot>)
    requires t <= c.threshold
    ensures Decide(c, doc, shots).success ==> Decide(c.(threshold := t), doc, shots).success
  {
    var d := c.(threshold := t);
    forall i | 0 <= i < |shots| && Matches(c, doc, shots[i])
      ensures Matches(d, doc, shots[i])
    {
      LowerThresholdMatches(c, t, doc, shots[i]);
    }
    assert forall i :: 0 <= i < |shots| ==> (Aborts(c, shots[i]) <==> Aborts(d, shots[i]));
  }

  /** And it can admit strangers: a face scoring 0.3 is rejected at the default threshold
      and accepted at 0.25. */
  lemma LowerIsLaxer(policy: Policy) returns (c: Settings, doc: UserDoc, shots: seq<Shot>)
    ensures c.policy == policy && !Decide(c, doc, shots).success
    ensures Decide(c.(threshold := 0.25), doc, shots).success
  {
    var camera := Camera("rgb", "/dev/video0", "rgb", 0, true);
    c := Settings([camera], policy, 0.363, 5, 5, 300, "users", "model", (v, w) => 0.3, (v, w) => v);
    doc := UserDoc(None, map[], map["rgb" := [1.0]], map[]);
    var shot := Shot(camera, Some(Frame(90.0, 1, [1.0])));
    shots := [shot];
    OneCameraDecision(c, doc, shot);
    OneCameraDecision(c.(threshold := 0.25), doc, shot);
    assert Stored(doc, "rgb") == [[1.0]];
    assert BestMatch(c, [1.0], [[1.0]]) == 0.3 == BestMatch(c.(threshold := 0.25), [1.0], [[1.0]]);
  }

  /** With one camera all policies come down to its match. */
  lemma OneCameraDecision(c: Settings, doc: UserDoc, s: Shot)
    requires Participates(s)
    ensures Decide(c, doc, [s]).success <==> Matches(c, doc, s)
  {
    assert [s][0] == s;
  }

  /** The decision sees which shots there are, not their order. */
  lemma OrderIrrelevant(c: Settings, doc: UserDoc, shots: seq<Shot>, other: seq<Shot>)
    requires multiset(shots) == multiset(other)
    ensures Decide(c, doc, shots) == Decide(c, doc, other)
  {
    forall s: Shot
      ensures s in shots <==> s in other
    {
      assert s in multiset(shots) <==> s in multiset(other);
    }
    MoreShots(c, doc, shots, other);
    MoreShots(c, doc, other, shots);
  }

  lemma MoreShots(c: Settings, doc: UserDoc, shots: seq<Shot>, other: seq<Shot>)
    requires forall s :: s in shots ==> s in other
    ensures SomeParticipates(shots) ==> SomeParticipates(other)
    ensures SomeMatches(c, doc, shots) ==> SomeMatches(c, doc, other)
    ensures SomeFails(c, doc, shots) ==> SomeFails(c, doc, other)
    ensures SomeAborts(c, shots) ==> SomeAborts(c, other)
    ensures BestScore(c, doc, shots) <= BestScore(c, doc, other)
  {
    BestScoreIsMaximum(c, doc, shots);
    BestScoreIsMaximum(c, doc, other);
    assert forall i :: 0 <= i < |shots| ==> shots[i] in other;
  }

  /** Every stored embedding of `doc` is also stored in `more`, type by type. */
  ghost predicate StoresAtLeast(doc: UserDoc, more: UserDoc) {
    forall kind, i :: 0 <= i < |Stored(doc, kind)| ==> Stored(doc, kind)[i] in Stored(more, kind)
  }

  lemma MatchesMonotone(c: Settings, doc: UserDoc, more: UserDoc, s: Shot)
    requires StoresAtLeast(doc, more) && Matches(c, doc, s)
    ensures Matches(c, more, s)
  {
    var refs := Stored(doc, s.camera.kind);
    assert refs[0] in Stored(more, s.camera.kind);
    MatchMeaning(c, doc, s);
    MatchMeaning(c, more, s);
    var i :| 0 <= i < |refs| && Floored(c.score(s.frame.value.embedding, refs[i])) >= c.threshold;
    var k :| 0 <= k < |Stored(more, s.camera.kind)| && Stored(more, s.camera.kind)[k] == refs[i];
  }

  /** Storing more never turns an accept into a reject, under any policy. */
  lemma DecisionMonotone(c: Settings, doc: UserDoc, more: UserDoc, shots: seq<Shot>)
    requires StoresAtLeast(doc, more)
    ensures Decide(c, doc, shots).success ==> Decide(c, more, shots).success
    ensures Decide(c, doc, shots).recorded == Decide(c, more, shots).recorded
  {
    forall i | 0 <= i < |shots| && Matches(c, doc, shots[i])
      ensures Matches(c, more, shots[i])
    {
      MatchesMonotone(c, doc, more, shots[i]);
    }
  }

  /** The decision depends on the stored embeddings only: two documents with the
      same views decide alike, whatever is pending in them. */
  lemma DecisionSeesViews(c: Settings, doc: UserDoc, other: UserDoc, shots: seq<Shot>)
    requires forall k :: View(doc, k) == View(other, k)
    ensures Decide(c, doc, shots) == Decide(c, other, shots)
  {
    assert forall k :: Stored(doc, k) == Stored(other, k);
    forall i | 0 <= i < |shots|
      ensures ShotScore(c, doc, shots[i]) == ShotScore(c, other, shots[i])
      ensures Matches(c, doc, shots[i]) <==> Matches(c, other, shots[i])
    {
    }
    BestScoreIsMaximum(c, doc, shots);
    BestScoreIsMaximum(c, other, shots);
  }
}
