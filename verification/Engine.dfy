/** The authentication engine: a class whose methods run the camera loops over an
    in-memory document and write it back at the end, proved against `EngineSpec`. */
module Engine {
  import opened Domain
  import opened EmbeddingStore
  import opened EngineSpec
  import opened Encoding
  import V = Verification
  import L = Lockout

  class AuthEngine {
    const config: Settings
    /** The users directory: file name to content. */
    var files: map<string, File>
    /** `lockout_map_` */
    var lockout: map<string, LockoutState>

    ghost function Now(): State
      reads this
    {
      State(files, lockout)
    }

    constructor (config: Settings, files: map<string, File>)
      ensures this.config == config && Now() == State(files, map[])
    {
      this.config := config;
      this.files := files;
      this.lockout := map[];
    }

    // -------------------------------------------------------------------------
    // Lockout
    // -------------------------------------------------------------------------

    method IsUserLockedOut(user: string, now: nat) returns (locked: bool)
      ensures locked <==> L.Locked(config, lockout, user, now)
    {
      if config.lockoutAttempts <= 0 {
        return false;
      }
      if user in lockout {
        return now < lockout[user].until;
      }
      return false;
    }

    method RecordAuthAttempt(user: string, success: bool, now: nat)
      modifies this`lockout
      ensures lockout == L.Record(config, old(lockout), user, success, now)
    {
      if config.lockoutAttempts <= 0 {
        return;
      }
      if user !in lockout {
        lockout := lockout[user := LockoutState(0, 0)];
      }
      var state := lockout[user];
      if success {
        state := LockoutState(0, 0);
      } else {
        state := state.(failed := state.failed + 1);
        if state.failed >= config.lockoutAttempts {
          state := state.(until := now + config.lockoutDurationSec * L.NANOSECONDS);
        }
      }
      lockout := lockout[user := state];
    }

    // -------------------------------------------------------------------------
    // Verification
    // -------------------------------------------------------------------------

    method LoadDocument(user: string) returns (doc: Outcome<Option<UserDoc>>)
      ensures doc == Load(config, Now(), user)
    {
      var ok := IsValidUsername(user);
      var file := UserFile(config, user);
      if !ok || file !in files {
        return Returned(None);
      }
      if !Readable(files[file]) {
        return Threw;
      }
      return Returned(Some(files[file].doc));
    }

    method BestCameraScore(embedding: Vector, refs: seq<Vector>) returns (best: real)
      ensures best == V.BestMatch(config, embedding, refs)
    {
      best := 0.0;
      for i := 0 to |refs|
        invariant best == V.BestMatch(config, embedding, refs[..i])
      {
        assert refs[..i + 1][..i] == refs[..i];
        var score := config.score(embedding, refs[i]);
        if score > best {
          best := score;
        }
      }
      assert refs[..|refs|] == refs;
    }

    /** `all_embeddings`: the array's data if there is an array, else the old single
        embedding. */
    method AllEmbeddings(doc: UserDoc, kind: string) returns (refs: seq<Vector>)
      ensures refs == V.Stored(doc, kind)
    {
      refs := [];
      if kind in doc.arrays {
        var entries := doc.arrays[kind];
        for i := 0 to |entries|
          invariant |refs| == i && forall k :: 0 <= k < i ==> refs[k] == entries[k].data
        {
          refs := refs + [entries[i].data];
        }
      } else if kind in doc.legacy {
        refs := [doc.legacy[kind]];
      }
    }

    method VerifyUserCore(user: string, e: Env) returns (outcome: Outcome<AuthResult>)
      modifies this`lockout
      ensures (Now(), outcome) == Verify(config, old(Now()), user, e)
    {
      var result := AuthResult(false, 0.0);
      if !e.models {
        return Returned(result);
      }
      var valid := IsValidUsername(user);
      if !valid {
        return Returned(result);
      }
      var locked := IsUserLockedOut(user, e.gate);
      if locked {
        return Returned(result);
      }
      var found :- LoadDocument(user);
      if found.None? {
        return Returned(result);
      }
      var j := found.value;
      ghost var shots := Shots(config, e);

      var participants, successes, failures := 0, 0, 0;
      var overallBest := 0.0;
      for i := 0 to |config.cameras|
        invariant !V.SomeAborts(config, shots[..i])
        invariant participants == successes + failures && successes >= 0 && failures >= 0
        invariant participants > 0 <==> V.SomeParticipates(shots[..i])
        invariant successes > 0 <==> V.SomeMatches(config, j, shots[..i])
        invariant failures > 0 <==> V.SomeFails(config, j, shots[..i])
        invariant overallBest == V.BestScore(config, j, shots[..i])
        invariant lockout == old(lockout)
      {
        var camera := config.cameras[i];
        var capture := e.frames(i);
        AbortStep(config, shots, i);
        LoopStep(config, j, shots, i);
        MaximumStep(config, j, shots, i);
        if capture.None? {
          if config.policy == StrictAll {
            return Returned(result);
          }
          if config.policy == Adaptive && camera.mandatory {
            return Returned(result);
          }
          continue;
        }
        var frame := capture.value;
        if camera.minBrightness > 0 {
          if frame.brightness < camera.minBrightness as real {
            if config.policy == Adaptive && camera.mandatory {
              return Returned(result);
            }
            continue;
          }
        }
        participants := participants + 1;
        var refs := AllEmbeddings(j, camera.kind);
        if |refs| == 0 {
          failures := failures + 1;
          continue;
        }
        if frame.faces >= 1 {
          var best := BestCameraScore(frame.embedding, refs);
          if best > overallBest {
            overallBest := best;
          }
          if best >= config.threshold {
            successes := successes + 1;
          } else {
            failures := failures + 1;
          }
        } else {
          failures := failures + 1;
        }
      }
      assert shots[..|shots|] == shots;
      result := result.(best := overallBest);
      if participants == 0 {
        return Returned(result);
      }
      var ok;
      if config.policy == StrictAll {
        ok := failures == 0 && successes > 0;
      } else {
        ok := successes > 0;
      }
      result := result.(success := ok);
      RecordAuthAttempt(user, ok, e.stamp);
      return Returned(result);
    }

    // -------------------------------------------------------------------------
    // The embedding store
    // -------------------------------------------------------------------------

    /** Writes the in-memory document back: `std::ofstream` empties the file before `dump`
        serializes the document or throws. */
    method SaveDocument(user: string, doc: UserDoc) returns (done: Outcome<bool>)
      requires ValidUsername(user)
      modifies this`files
      ensures (Now(), done) == Save(config, old(Now()), user, doc)
    {
      var file := UserFile(config, user);
      files := files[file := Corrupt];
      var dumped := DumpDocument(user, doc);
      if !dumped {
        return Threw;
      }
      files := files[file := Document(doc)];
      assert files == old(files)[file := Document(doc)];
      return Returned(true);
    }

    method EnrollUser(user: string, e: Env) returns (ok: Outcome<bool>)
      modifies this`files
      ensures (Now(), ok) == Enroll(config, old(Now()), user, e)
    {
      if !e.models {
        return Returned(false);
      }
      var valid := IsValidUsername(user);
      if !valid {
        return Returned(false);
      }
      var found :- LoadDocument(user);
      var j := if found.Some? then found.value else UserDoc(Some(e.wall), map[], map[], map[]);
      ghost var doc := j;
      ghost var shots := Shots(config, e);
      assert LearnedLast(shots[..0]) == map[];
      for i := 0 to |config.cameras|
        invariant forall s :: s in shots[..i] ==> Usable(s)
        invariant j == Enrolling(doc, shots[..i])
        invariant files == old(files)
      {
        var kind := config.cameras[i].kind;
        var capture := e.frames(i);
        assert shots[i] in shots;
        if capture.None? {
          return Returned(false);
        }
        if capture.value.faces != 1 {
          return Returned(false);
        }
        EnrollStep(doc, shots, i);
        j := j.(pending := j.pending[kind := capture.value.embedding]);
      }
      assert shots[..|shots|] == shots;
      ok := SaveDocument(user, j);
    }

    /** The position of the first entry labelled `tag`, or |entries|. */
    method FindLabel(entries: seq<Entry>, tag: string) returns (at: nat)
      ensures at == IndexOf(entries, tag)
      ensures at < |entries| <==> HasLabel(Project(entries), tag)
    {
      at := 0;
      while at < |entries| && entries[at].tag != tag
        invariant at <= |entries|
        invariant forall k :: 0 <= k < at ==> entries[k].tag != tag
      {
        at := at + 1;
      }
      if at < |entries| {
        assert Project(entries)[at].tag == tag;
      }
    }

    /** The work of `setLabel` for the `i`-th camera, whose type is pending in the
        in-memory copy `copy` of `doc`. */
    method StoreLabel(copy: UserDoc, ghost doc: UserDoc, i: nat, tag: string, wall: nat, ghost updated: bool)
      returns (result: Option<UserDoc>)
      requires i < |config.cameras| && config.cameras[i].kind in copy.pending
      requires LabelledUpTo(config, doc, i, tag, wall, copy, updated)
      ensures if result.None? then LabelledDoc(config, doc, tag, wall).None?
              else LabelledUpTo(config, doc, i + 1, tag, wall, result.value, true)
    {
      LabelBlocked(config, doc, i, tag, wall, copy, updated);
      if !Full(config, doc, config.cameras[i].kind, tag) {
        LabelStores(config, doc, i, tag, wall, copy, updated);
      }
      var kind := config.cameras[i].kind;
      var j := InitArray(copy, kind, wall);
      var entries := j.arrays[kind];
      var entry := Entry(tag, j.pending[kind], wall, Some(config.modelVersion));
      var at := FindLabel(entries, tag);
      if config.maxEmbeddings > 0 && |entries| >= config.maxEmbeddings {
        if at < |entries| {
          entries := entries[at := entry];
        } else {
          return None;
        }
      } else {
        if at < |entries| {
          entries := entries[at := entry];
        } else {
          entries := entries + [entry];
        }
      }
      j := j.(arrays := j.arrays[kind := entries]);
      j := j.(pending := j.pending - {kind});
      return Some(j);
    }

    /** The camera loop of `setLabel` over the in-memory document; None when it gives
        up or finds nothing pending. */
    method LabelPending(doc: UserDoc, tag: string, wall: nat) returns (result: Option<UserDoc>)
      ensures result == LabelledDoc(config, doc, tag, wall)
    {
      var j := doc;
      var updated := false;
      LabelNothing(config, doc, tag, wall);
      for i := 0 to |config.cameras|
        invariant LabelledUpTo(config, doc, i, tag, wall, j, updated)
      {
        if config.cameras[i].kind in j.pending {
          var next := StoreLabel(j, doc, i, tag, wall, updated);
          if next.None? {
            return None;
          }
          j := next.value;
          updated := true;
        } else {
          LabelSkips(config, doc, i, tag, wall, j, updated);
        }
      }
      LabelledAll(config, doc, tag, wall, j, updated);
      return if updated then Some(j) else None;
    }

    method SetLabelOf(user: string, tag: string, e: Env) returns (ok: Outcome<bool>)
      modifies this`files
      ensures (Now(), ok) == SetLabel(config, old(Now()), user, tag, e)
    {
      var found :- LoadDocument(user);
      if found.None? {
        return Returned(false);
      }
      var updated := LabelPending(found.value, tag, e.wall);
      if updated.None? {
        return Returned(false);
      }
      ok := SaveDocument(user, updated.value);
    }

    /** The work of `trainUser` for one camera that saw a single face. */
    method AbsorbFace(doc: UserDoc, kind: string, v: Vector, tag: string, createNew: bool,
                      wall: nat) returns (result: Option<UserDoc>)
      ensures var base := Base(doc, kind, wall);
              result ==
              if createNew && config.maxEmbeddings > 0 && |base| >= config.maxEmbeddings then None
              else Some(PutArray(doc, kind, Absorb(config, createNew, base, tag, v, wall), wall))
    {
      var j := InitArray(doc, kind, wall);
      var entries := j.arrays[kind];
      if createNew {
        if config.maxEmbeddings > 0 && |entries| >= config.maxEmbeddings {
          return None;
        }
        entries := entries + [Entry(TrainingLabel(tag, wall), v, wall, None)];
      } else {
        var at := FindLabel(entries, tag);
        if at < |entries| {
          entries := entries[at := entries[at].(data := config.blend(entries[at].data, v), created := wall)];
        } else {
          entries := entries + [Entry(tag, v, wall, None)];
        }
      }
      return Some(j.(arrays := j.arrays[kind := entries]));
    }

    /** The camera loop of `trainUser` over the in-memory document; None when it gives
        up at the cap or learns nothing. */
    method Learn(doc: UserDoc, tag: string, createNew: bool, e: Env) returns (result: Option<UserDoc>)
      ensures result == TrainedDoc(config, doc, Shots(config, e), tag, createNew, e.wall)
    {
      var j := doc;
      ghost var shots := Shots(config, e);
      var updatedAny := false;
      TrainNothing(config, doc, tag, createNew, e.wall);
      for i := 0 to |config.cameras|
        invariant j == Training(config, doc, shots[..i], tag, createNew, e.wall)
        invariant updatedAny <==> LearnedKinds(shots[..i]) != {}
        invariant createNew ==> !Overflows(config, doc, shots[..i])
      {
        var kind := config.cameras[i].kind;
        var capture := e.frames(i);
        TrainStep(config, doc, shots, i, tag, createNew, e.wall);
        LearnedKindsStep(shots, i);
        if createNew {
          CapStep(config, doc, shots, i, tag, e.wall);
        }
        if capture.None? {
          continue;
        }
        if capture.value.faces != 1 {
          continue;
        }
        var next := AbsorbFace(j, kind, capture.value.embedding, tag, createNew, e.wall);
        if next.None? {
          return None;
        }
        j := next.value;
        updatedAny := true;
      }
      assert shots[..|shots|] == shots;
      return if updatedAny then Some(j) else None;
    }

    method TrainUser(user: string, tag: string, createNew: bool, e: Env) returns (ok: Outcome<bool>)
      modifies this`files
      ensures (Now(), ok) == Train(config, old(Now()), user, tag, createNew, e)
    {
      if !e.models {
        return Returned(false);
      }
      var found :- LoadDocument(user);
      if found.None? {
        return Returned(false);
      }
      var learned := Learn(found.value, tag, createNew, e);
      if learned.None? {
        return Returned(false);
      }
      ok := SaveDocument(user, learned.value);
    }

    method ListEmbeddings(user: string) returns (listed: Outcome<seq<string>>)
      ensures listed == Listed(config, Now(), user)
    {
      var found :- LoadDocument(user);
      if found.None? {
        return Returned([]);
      }
      var texts := [];
      var j := found.value;
      for i := 0 to |config.cameras|
        invariant texts == Listing(config.cameras[..i], j)
      {
        assert config.cameras[..i + 1][..i] == config.cameras[..i];
        var kind := config.cameras[i].kind;
        if kind in j.arrays {
          var entries := j.arrays[kind];
          ghost var before := texts;
          for k := 0 to |entries|
            invariant texts == InsertTags(before, entries[..k])
          {
            assert entries[..k + 1][..k] == entries[..k];
            texts := Insert(texts, entries[k].tag);
          }
          assert entries[..|entries|] == entries;
        }
        if kind in j.legacy {
          texts := Insert(texts, "default (legacy)");
        }
      }
      assert config.cameras[..|config.cameras|] == config.cameras;
      return Returned(texts);
    }

    /** `testCameraAndAuth`, as far as it does not depend on detector exceptions. */
    method TestCameraAndAuth(e: Env) returns (ok: bool)
      ensures ok <==> HardwareOk(config, e)
    {
      ok := false;
      if !e.models {
        return;
      }
      for i := 0 to |config.cameras|
        invariant ok <==> exists k :: 0 <= k < i && e.frames(k).Some?
      {
        if e.frames(i).Some? {
          ok := true;
        }
      }
    }

    /** The erase-while-iterating loop. */
    method EraseLabel(list: seq<Entry>, tag: string) returns (entries: seq<Entry>, removed: bool)
      ensures entries == Without(list, tag)
      ensures removed <==> HasLabel(Project(list), tag)
    {
      entries, removed := list, false;
      var at := 0;
      ghost var seen := 0;
      while at < |entries|
        invariant at <= |entries| && seen <= |list|
        invariant entries[..at] == Without(list[..seen], tag) && entries[at..] == list[seen..]
        invariant removed <==> exists k :: 0 <= k < seen && list[k].tag == tag
        decreases |entries| - at
      {
        assert entries[at] == list[seen];
        assert list[..seen + 1][..seen] == list[..seen];
        ghost var before := entries;
        if entries[at].tag == tag {
          entries := entries[..at] + entries[at + 1..];
          removed := true;
          assert entries[at..] == before[at..][1..];
        } else {
          at := at + 1;
          assert entries[at..] == before[at - 1..][1..];
        }
        seen := seen + 1;
      }
      assert list[..seen] == list && entries[..at] == entries;
      assert forall k :: 0 <= k < |list| ==> Project(list)[k].tag == list[k].tag;
    }

    method RemoveEmbedding(user: string, tag: string) returns (ok: Outcome<bool>)
      modifies this`files
      ensures (Now(), ok) == Remove(config, old(Now()), user, tag)
    {
      var found :- LoadDocument(user);
      if found.None? {
        return Returned(false);
      }
      var j := found.value;
      ghost var doc := j;
      var removed := false;
      ghost var kinds: set<string> := {};
      RemoveNothing(doc, tag);
      for i := 0 to |config.cameras|
        invariant kinds == CameraKinds(config.cameras[..i])
        invariant j == Removing(doc, kinds, tag)
        invariant removed <==> Removable(doc, kinds, tag)
        invariant files == old(files)
      {
        var kind := config.cameras[i].kind;
        assert config.cameras[..i + 1] == config.cameras[..i] + [config.cameras[i]];
        if kind !in j.arrays {
          RemoveSkip(doc, kinds, kind, tag);
        } else {
          RemoveStep(doc, kinds, kind, tag);
          RemovableStep(doc, kinds, kind, tag);
          var entries, hit := EraseLabel(j.arrays[kind], tag);
          j := j.(arrays := j.arrays[kind := entries]);
          removed := removed || hit;
        }
        kinds := kinds + {kind};
      }
      assert config.cameras[..|config.cameras|] == config.cameras;
      if !removed {
        return Returned(false);
      }
      ok := SaveDocument(user, j);
    }
  }

  /** What one more camera adds to each of the loop's counters. */
  lemma LoopStep(c: Settings, doc: UserDoc, shots: seq<Shot>, i: nat)
    requires i < |shots|
    ensures V.SomeParticipates(shots[..i + 1]) <==> V.SomeParticipates(shots[..i]) || V.Participates(shots[i])
    ensures V.SomeMatches(c, doc, shots[..i + 1]) <==> V.SomeMatches(c, doc, shots[..i]) || V.Matches(c, doc, shots[i])
    ensures V.SomeFails(c, doc, shots[..i + 1]) <==>
            V.SomeFails(c, doc, shots[..i]) || (V.Participates(shots[i]) && !V.Matches(c, doc, shots[i]))
  {
    PrefixStep(shots, i);
  }

  /** Which cameras end the attempt at once. */
  lemma AbortStep(c: Settings, shots: seq<Shot>, i: nat)
    requires i < |shots|
    ensures V.SomeAborts(c, shots[..i + 1]) <==> V.SomeAborts(c, shots[..i]) || V.Aborts(c, shots[i])
    ensures V.Aborts(c, shots[i]) ==> V.SomeAborts(c, shots)
  {
    PrefixStep(shots, i);
  }

  lemma PrefixStep(shots: seq<Shot>, i: nat)
    requires i < |shots|
    ensures shots[..i + 1][i] == shots[i]
    ensures forall k :: 0 <= k < i ==> shots[..i + 1][k] == shots[..i][k]
  {
  }

  /** What one more camera does to the running maximum. */
  lemma MaximumStep(c: Settings, doc: UserDoc, shots: seq<Shot>, i: nat)
    requires i < |shots|
    ensures V.BestScore(c, doc, shots[..i + 1]) ==
            var rest, score := V.BestScore(c, doc, shots[..i]), V.ShotScore(c, doc, shots[i]);
            if score > rest then score else rest
    ensures V.BestScore(c, doc, shots[..i]) >= 0.0
  {
    assert shots[..i + 1][..i] == shots[..i];
    V.BestScoreIsMaximum(c, doc, shots[..i]);
  }

  // What one more camera adds to the in-memory document.

  lemma LearnedStep(shots: seq<Shot>, i: nat, kind: string)
    requires i < |shots|
    ensures Learned(shots[..i + 1], kind) ==
            Learned(shots[..i], kind)
            + if Usable(shots[i]) && shots[i].camera.kind == kind then [shots[i].frame.value.embedding] else []
  {
    var now, next := shots[..i], shots[..i + 1];
    assert next[..i] == now && next[i] == shots[i];
  }

  lemma LearnedKindsStep(shots: seq<Shot>, i: nat)
    requires i < |shots|
    ensures LearnedKinds(shots[..i + 1]) ==
            LearnedKinds(shots[..i]) + if Usable(shots[i]) then {shots[i].camera.kind} else {}
  {
    assert shots[..i + 1] == shots[..i] + [shots[i]];
  }

  lemma EnrollStep(doc: UserDoc, shots: seq<Shot>, i: nat)
    requires i < |shots| && Usable(shots[i])
    ensures Enrolling(doc, shots[..i + 1]) ==
            var j := Enrolling(doc, shots[..i]);
            j.(pending := j.pending[shots[i].camera.kind := shots[i].frame.value.embedding])
  {
    LearnedLastStep(shots, i);
    assert doc.pending + LearnedLast(shots[..i + 1]) ==
           (doc.pending + LearnedLast(shots[..i]))[shots[i].camera.kind := shots[i].frame.value.embedding];
  }

  lemma LearnedLastStep(shots: seq<Shot>, i: nat)
    requires i < |shots| && Usable(shots[i])
    ensures LearnedLast(shots[..i + 1]) ==
            LearnedLast(shots[..i])[shots[i].camera.kind := shots[i].frame.value.embedding]
  {
    var kind, v := shots[i].camera.kind, shots[i].frame.value.embedding;
    LearnedKindsStep(shots, i);
    var now, next := LearnedLast(shots[..i])[kind := v], LearnedLast(shots[..i + 1]);
    assert next.Keys == now.Keys;
    forall k | k in next
      ensures next[k] == now[k]
    {
      LearnedStep(shots, i, k);
      if k != kind {
        assert Learned(shots[..i], k) + [] == Learned(shots[..i], k);
      }
    }
  }

  lemma PendingKindsStep(cameras: seq<Camera>, i: nat, doc: UserDoc)
    requires i < |cameras|
    ensures PendingKinds(cameras[..i + 1], doc) ==
            PendingKinds(cameras[..i], doc) + if cameras[i].kind in doc.pending then {cameras[i].kind} else {}
    ensures cameras[i].kind in doc.pending ==> cameras[i].kind in PendingKinds(cameras, doc)
  {
    assert cameras[..i + 1] == cameras[..i] + [cameras[i]];
  }

  lemma LabelStep(c: Settings, doc: UserDoc, kinds: set<string>, kind: string, tag: string, wall: nat)
    requires kinds <= doc.pending.Keys && kind in doc.pending && kind !in kinds
    ensures var j := Labelling(c, doc, kinds, tag, wall);
            && kind in j.pending && j.pending[kind] == doc.pending[kind]
            && Base(j, kind, wall) == Base(doc, kind, wall) && Project(Base(doc, kind, wall)) == View(doc, kind)
            && PutArray(j, kind, LabelledArray(c, doc, kind, tag, wall), wall).(pending := j.pending - {kind})
               == Labelling(c, doc, kinds + {kind}, tag, wall)
  {
    var j := Labelling(c, doc, kinds, tag, wall);
    var lists := LabelledArrays(c, doc, kinds, tag, wall);
    var list := LabelledArray(c, doc, kind, tag, wall);
    BaseWithArrays(doc, lists, kind, wall);
    PutArrayStep(doc, lists, kind, list, wall);
    LabelledArraysStep(c, doc, kinds, kind, tag, wall);
    var next := Labelling(c, doc, kinds + {kind}, tag, wall);
    assert PutArray(j, kind, list, wall) == PutArray(WithArrays(doc, lists), kind, list, wall).(pending := j.pending);
    assert j.pending - {kind} == next.pending by {
      assert forall k :: k in j.pending - {kind} <==> k in next.pending;
    }
  }

  /** What `setLabel` has done after `i` cameras: labelled every pending type among them,
      none of which was full. */
  ghost predicate LabelledUpTo(c: Settings, doc: UserDoc, i: int, tag: string, wall: nat, j: UserDoc, updated: bool) {
    && 0 <= i <= |c.cameras|
    && var kinds := PendingKinds(c.cameras[..i], doc);
       && (updated <==> kinds != {})
       && (forall k :: k in kinds ==> !Full(c, doc, k, tag))
       && j == Labelling(c, doc, kinds, tag, wall)
  }

  lemma LabelSkips(c: Settings, doc: UserDoc, i: nat, tag: string, wall: nat, j: UserDoc, updated: bool)
    requires i < |c.cameras| && LabelledUpTo(c, doc, i, tag, wall, j, updated)
    requires c.cameras[i].kind !in j.pending
    ensures LabelledUpTo(c, doc, i + 1, tag, wall, j, updated)
  {
    PendingKindsStep(c.cameras, i, doc);
    assert PendingKinds(c.cameras[..i + 1], doc) == PendingKinds(c.cameras[..i], doc);
  }

  /** The list a writer would start from has no room for the label. */
  ghost predicate Blocked(c: Settings, j: UserDoc, kind: string, tag: string, wall: nat) {
    var base := Base(j, kind, wall);
    c.maxEmbeddings > 0 && |base| >= c.maxEmbeddings && !HasLabel(Project(base), tag)
  }

  lemma LabelBlocked(c: Settings, doc: UserDoc, i: nat, tag: string, wall: nat, j: UserDoc, updated: bool)
    requires i < |c.cameras| && LabelledUpTo(c, doc, i, tag, wall, j, updated)
    requires c.cameras[i].kind in j.pending
    ensures Blocked(c, j, c.cameras[i].kind, tag, wall) <==> Full(c, doc, c.cameras[i].kind, tag)
    ensures Full(c, doc, c.cameras[i].kind, tag) ==> LabelledDoc(c, doc, tag, wall).None?
  {
    PendingKindsStep(c.cameras, i, doc);
    var kind := c.cameras[i].kind;
    LabelStep(c, doc, PendingKinds(c.cameras[..i], doc), kind, tag, wall);
    MigrationKeepsViews(doc, kind, wall, kind);
  }

  lemma LabelStores(c: Settings, doc: UserDoc, i: nat, tag: string, wall: nat, j: UserDoc, updated: bool)
    requires i < |c.cameras| && LabelledUpTo(c, doc, i, tag, wall, j, updated)
    requires c.cameras[i].kind in j.pending && !Full(c, doc, c.cameras[i].kind, tag)
    ensures var kind := c.cameras[i].kind;
            var j' := PutArray(j, kind, LabelledArray(c, j, kind, tag, wall), wall);
            LabelledUpTo(c, doc, i + 1, tag, wall, j'.(pending := j.pending - {kind}), true)
  {
    var now := PendingKinds(c.cameras[..i], doc);
    LabelStep(c, doc, now, c.cameras[i].kind, tag, wall);
    LabelStored(c, doc, i, tag, wall);
  }

  lemma LabelStored(c: Settings, doc: UserDoc, i: nat, tag: string, wall: nat)
    requires i < |c.cameras| && c.cameras[i].kind in doc.pending && !Full(c, doc, c.cameras[i].kind, tag)
    requires forall k :: k in PendingKinds(c.cameras[..i], doc) ==> !Full(c, doc, k, tag)
    ensures LabelledUpTo(c, doc, i + 1, tag, wall,
                         Labelling(c, doc, PendingKinds(c.cameras[..i], doc) + {c.cameras[i].kind}, tag, wall), true)
  {
    PendingKindsStep(c.cameras, i, doc);
  }

  lemma LabelledAll(c: Settings, doc: UserDoc, tag: string, wall: nat, j: UserDoc, updated: bool)
    requires LabelledUpTo(c, doc, |c.cameras|, tag, wall, j, updated)
    ensures LabelledDoc(c, doc, tag, wall) == if updated then Some(j) else None
  {
    assert c.cameras[..|c.cameras|] == c.cameras;
  }

  lemma LabelNothing(c: Settings, doc: UserDoc, tag: string, wall: nat)
    ensures LabelledUpTo(c, doc, 0, tag, wall, doc, false)
  {
    assert LabelledArrays(c, doc, {}, tag, wall) == map[];
    assert PendingKinds(c.cameras[..0], doc) == {};
  }

  lemma LabelledArraysStep(c: Settings, doc: UserDoc, kinds: set<string>, kind: string, tag: string, wall: nat)
    requires kinds <= doc.pending.Keys && kind in doc.pending
    ensures LabelledArrays(c, doc, kinds + {kind}, tag, wall) ==
            LabelledArrays(c, doc, kinds, tag, wall)[kind := LabelledArray(c, doc, kind, tag, wall)]
  {
  }

  lemma TrainNothing(c: Settings, doc: UserDoc, tag: string, createNew: bool, wall: nat)
    ensures Training(c, doc, [], tag, createNew, wall) == doc
  {
    assert TrainedArrays(c, doc, [], tag, createNew, wall) == map[];
  }

  lemma TrainedArrayStep(c: Settings, doc: UserDoc, shots: seq<Shot>, i: nat, kind: string, tag: string,
                         createNew: bool, wall: nat)
    requires i < |shots|
    ensures TrainedArray(c, doc, shots[..i + 1], kind, tag, createNew, wall) ==
            var a := TrainedArray(c, doc, shots[..i], kind, tag, createNew, wall);
            if Usable(shots[i]) && shots[i].camera.kind == kind then
              Absorb(c, createNew, a, tag, shots[i].frame.value.embedding, wall)
            else a
    ensures kind !in LearnedKinds(shots[..i]) ==>
              TrainedArray(c, doc, shots[..i], kind, tag, createNew, wall) == Base(doc, kind, wall)
  {
    LearnedStep(shots, i, kind);
    LearnedKindsAre(shots[..i], kind);
    var vs, vs' := Learned(shots[..i], kind), Learned(shots[..i + 1], kind);
    if Usable(shots[i]) && shots[i].camera.kind == kind {
      assert vs' == vs + [shots[i].frame.value.embedding];
      assert vs'[..|vs'| - 1] == vs;
    } else {
      assert vs' == vs;
    }
  }

  lemma TrainedArraysStep(c: Settings, doc: UserDoc, shots: seq<Shot>, i: nat, tag: string, createNew: bool, wall: nat)
    requires i < |shots|
    ensures var kind := shots[i].camera.kind;
            var lists := TrainedArrays(c, doc, shots[..i], tag, createNew, wall);
            TrainedArrays(c, doc, shots[..i + 1], tag, createNew, wall) ==
            if Usable(shots[i]) then lists[kind := TrainedArray(c, doc, shots[..i + 1], kind, tag, createNew, wall)]
            else lists
  {
    var kind := shots[i].camera.kind;
    LearnedKindsStep(shots, i);
    forall k | k != kind || !Usable(shots[i])
      ensures TrainedArray(c, doc, shots[..i + 1], k, tag, createNew, wall)
                  == TrainedArray(c, doc, shots[..i], k, tag, createNew, wall)
    {
      TrainedArrayStep(c, doc, shots, i, k, tag, createNew, wall);
    }
    if Usable(shots[i]) {
      OneTrainedArray(c, doc, shots[..i], shots[..i + 1], kind, tag, createNew, wall);
    } else {
      NoTrainedArray(c, doc, shots[..i], shots[..i + 1], tag, createNew, wall);
    }
  }

  lemma NoTrainedArray(c: Settings, doc: UserDoc, shots: seq<Shot>, next: seq<Shot>, tag: string,
                       createNew: bool, wall: nat)
    requires LearnedKinds(next) == LearnedKinds(shots)
    requires forall k :: TrainedArray(c, doc, next, k, tag, createNew, wall)
                 == TrainedArray(c, doc, shots, k, tag, createNew, wall)
    ensures TrainedArrays(c, doc, next, tag, createNew, wall) == TrainedArrays(c, doc, shots, tag, createNew, wall)
  {
  }

  lemma OneTrainedArray(c: Settings, doc: UserDoc, shots: seq<Shot>, next: seq<Shot>, kind: string,
                        tag: string, createNew: bool, wall: nat)
    requires LearnedKinds(next) == LearnedKinds(shots) + {kind}
    requires forall k :: k != kind ==>
               TrainedArray(c, doc, next, k, tag, createNew, wall)
               == TrainedArray(c, doc, shots, k, tag, createNew, wall)
    ensures TrainedArrays(c, doc, next, tag, createNew, wall) ==
            var lists := TrainedArrays(c, doc, shots, tag, createNew, wall);
            lists[kind := TrainedArray(c, doc, next, kind, tag, createNew, wall)]
  {
  }

  lemma TrainStep(c: Settings, doc: UserDoc, shots: seq<Shot>, i: nat, tag: string, createNew: bool, wall: nat)
    requires i < |shots|
    ensures var j, j' := Training(c, doc, shots[..i], tag, createNew, wall),
                Training(c, doc, shots[..i + 1], tag, createNew, wall);
            var kind := shots[i].camera.kind;
            var base := Base(j, kind, wall);
            && base == TrainedArray(c, doc, shots[..i], kind, tag, createNew, wall)
            && j' == if Usable(shots[i]) then
                       PutArray(j, kind, Absorb(c, createNew, base, tag, shots[i].frame.value.embedding, wall), wall)
                     else j
  {
    var kind := shots[i].camera.kind;
    var lists := TrainedArrays(c, doc, shots[..i], tag, createNew, wall);
    TrainedArraysStep(c, doc, shots, i, tag, createNew, wall);
    TrainedArrayStep(c, doc, shots, i, kind, tag, createNew, wall);
    BaseWithArrays(doc, lists, kind, wall);
    PutArrayStep(doc, lists, kind, TrainedArray(c, doc, shots[..i + 1], kind, tag, createNew, wall), wall);
  }

  lemma {:induction false} AppendedLength(c: Settings, es: seq<Entry>, tag: string, vs: seq<Vector>, wall: nat)
    ensures |AbsorbAll(c, true, es, tag, vs, wall)| == |es| + |vs|
  {
    if vs != [] {
      AppendedLength(c, es, tag, vs[..|vs| - 1], wall);
    }
  }

  /** The size test before an append decides whether the whole call overflows. */
  lemma CapStep(c: Settings, doc: UserDoc, shots: seq<Shot>, i: nat, tag: string, wall: nat)
    requires i < |shots| && !Overflows(c, doc, shots[..i])
    ensures !Usable(shots[i]) ==> !Overflows(c, doc, shots[..i + 1])
    ensures Usable(shots[i]) ==>
              var size := |TrainedArray(c, doc, shots[..i], shots[i].camera.kind, tag, true, wall)|;
              if c.maxEmbeddings > 0 && size >= c.maxEmbeddings then Overflows(c, doc, shots)
              else !Overflows(c, doc, shots[..i + 1])
  {
    var kind := shots[i].camera.kind;
    forall k
      ensures |Learned(shots[..i + 1], k)| == |Learned(shots[..i], k)| + if Usable(shots[i]) && kind == k then 1 else 0
      ensures k in LearnedKinds(shots[..i + 1]) <==> k in LearnedKinds(shots[..i]) || (Usable(shots[i]) && k == kind)
    {
      LearnedStep(shots, i, k);
      LearnedKindsStep(shots, i);
    }
    if Usable(shots[i]) {
      AppendedLength(c, Base(doc, kind, wall), tag, Learned(shots[..i], kind), wall);
      assert Project(Base(doc, kind, wall)) == View(doc, kind);
      LearnedPrefix(shots, i + 1, kind);
      assert kind in LearnedKinds(shots);
    }
  }

  lemma RemoveNothing(doc: UserDoc, tag: string)
    ensures Removing(doc, {}, tag) == doc
  {
    assert Removing(doc, {}, tag).arrays == doc.arrays;
  }

  lemma RemoveStep(doc: UserDoc, kinds: set<string>, kind: string, tag: string)
    requires kind in doc.arrays
    ensures var j := Removing(doc, kinds, tag);
            kind in j.arrays && Removing(doc, kinds + {kind}, tag)
                == j.(arrays := j.arrays[kind := Without(j.arrays[kind], tag)])
  {
    var j, j' := Removing(doc, kinds, tag), Removing(doc, kinds + {kind}, tag);
    WithoutTwice(doc.arrays[kind], tag);
    assert j.arrays[kind] == doc.arrays[kind] || j.arrays[kind] == Without(doc.arrays[kind], tag);
    UpdateIs(j.arrays, j'.arrays, kind, Without(j.arrays[kind], tag));
  }

  lemma UpdateIs<K, V>(m: map<K, V>, n: map<K, V>, k: K, v: V)
    requires n.Keys == m.Keys + {k} && n[k] == v
    requires forall x :: x in m && x != k ==> n[x] == m[x]
    ensures n == m[k := v]
  {
  }

  lemma RemovableStep(doc: UserDoc, kinds: set<string>, kind: string, tag: string)
    requires kind in doc.arrays
    ensures Removable(doc, kinds + {kind}, tag) <==>
            Removable(doc, kinds, tag) || HasLabel(Project(Removing(doc, kinds, tag).arrays[kind]), tag)
  {
    WithoutTwice(doc.arrays[kind], tag);
    if kind in kinds {
      assert kinds + {kind} == kinds;
    }
  }

  lemma WithoutTwice(es: seq<Entry>, tag: string)
    ensures Without(Without(es, tag), tag) == Without(es, tag)
    ensures !HasLabel(Project(Without(es, tag)), tag)
  {
    WithoutLabel(es, tag);
    WithoutAbsent(Without(es, tag), tag);
  }

  lemma RemoveSkip(doc: UserDoc, kinds: set<string>, kind: string, tag: string)
    requires kind !in doc.arrays
    ensures Removing(doc, kinds + {kind}, tag) == Removing(doc, kinds, tag)
    ensures Removable(doc, kinds + {kind}, tag) <==> Removable(doc, kinds, tag)
  {
    assert Removing(doc, kinds + {kind}, tag).arrays == Removing(doc, kinds, tag).arrays;
  }

  lemma {:induction false} WithoutLabel(es: seq<Entry>, tag: string)
    ensures forall i :: 0 <= i < |Without(es, tag)| ==> Without(es, tag)[i].tag != tag && Without(es, tag)[i] in es
    ensures forall i :: 0 <= i < |es| && es[i].tag != tag ==> es[i] in Without(es, tag)
    ensures |Without(es, tag)| <= |es|
  {
    if es != [] {
      WithoutLabel(es[..|es| - 1], tag);
      assert forall i :: 0 <= i < |es| - 1 ==> es[..|es| - 1][i] == es[i];
    }
  }

  lemma {:induction false} WithoutAbsent(es: seq<Entry>, tag: string)
    requires forall i :: 0 <= i < |es| ==> es[i].tag != tag
    ensures Without(es, tag) == es
  {
    if es != [] {
      var n := |es| - 1;
      WithoutAbsent(es[..n], tag);
      assert es == es[..n] + [es[n]];
    }
  }
}
