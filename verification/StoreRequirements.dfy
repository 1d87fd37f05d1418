/** What the store operations promise for one call, from the outside: exactly when they
    succeed, and what the user's document then holds, entry by entry. */
module StoreRequirements {
  import opened Text
  import opened Dictionary
  import opened Utf8
  import opened Domain
  import opened EmbeddingStore
  import opened EngineSpec
  import opened StoreProperties
  import opened EngineProperties
  import opened Encoding
  import opened Requirements

  // ---------------------------------------------------------------------------
  // Faces
  // ---------------------------------------------------------------------------

  /** Camera `i` sees exactly one face. */
  predicate OneFace(e: Env, i: nat) {
    e.frames(i).Some? && e.frames(i).value.faces == 1
  }

  /** What the cameras of a type see, from camera `i` on, of exactly one face each. */
  function FacesFrom(c: Settings, e: Env, kind: string, i: nat): seq<Vector>
    decreases |c.cameras| - i
  {
    if i >= |c.cameras| then []
    else
      (if c.cameras[i].kind == kind && OneFace(e, i) then [e.frames(i).value.embedding] else [])
      + FacesFrom(c, e, kind, i + 1)
  }

  lemma {:induction false} LearnedUpTo(c: Settings, e: Env, kind: string, i: nat)
    requires i <= |c.cameras|
    ensures Learned(Shots(c, e), kind) == Learned(Shots(c, e)[..i], kind) + FacesFrom(c, e, kind, i)
    decreases |c.cameras| - i
  {
    var shots := Shots(c, e);
    if i == |c.cameras| {
      assert shots[..i] == shots;
    } else {
      LearnedUpTo(c, e, kind, i + 1);
      assert shots[..i + 1][..i] == shots[..i] && shots[..i + 1][i] == shots[i];
    }
  }

  lemma LearnedIsFaces(c: Settings, e: Env, kind: string)
    ensures Learned(Shots(c, e), kind) == FacesFrom(c, e, kind, 0)
    ensures kind in LearnedKinds(Shots(c, e)) <==>
            exists i :: 0 <= i < |c.cameras| && c.cameras[i].kind == kind && OneFace(e, i)
    ensures FacesFrom(c, e, kind, 0) != [] <==>
            exists i :: 0 <= i < |c.cameras| && c.cameras[i].kind == kind && OneFace(e, i)
  {
    var shots := Shots(c, e);
    LearnedUpTo(c, e, kind, 0);
    LearnedKindsAre(shots, kind);
    if kind in LearnedKinds(shots) {
      var s :| s in shots && Usable(s) && s.camera.kind == kind;
      var i :| 0 <= i < |shots| && shots[i] == s;
      assert OneFace(e, i);
    }
    if i :| 0 <= i < |c.cameras| && c.cameras[i].kind == kind && OneFace(e, i) {
      assert shots[i] in shots && Usable(shots[i]);
    }
  }

  // ---------------------------------------------------------------------------
  // Enrolment
  // ---------------------------------------------------------------------------

  /** The file can be opened, if there is one, and every camera sees exactly one face. */
  ghost predicate Enrollable(c: Settings, st: State, user: string, e: Env) {
    && e.models && GoodName(user) && !HasBrokenFile(c, st, user)
    && forall i :: 0 <= i < |c.cameras| ==> OneFace(e, i)
  }

  ghost predicate Utf8Kinds(c: Settings) {
    forall i :: 0 <= i < |c.cameras| ==> IsUtf8(c.cameras[i].kind)
  }

  lemma AllUsable(c: Settings, e: Env, doc: UserDoc)
    ensures EnrolledDoc(doc, Shots(c, e)).Some? <==> forall i :: 0 <= i < |c.cameras| ==> OneFace(e, i)
  {
    var shots := Shots(c, e);
    assert forall i :: 0 <= i < |shots| ==> shots[i] in shots;
    forall s | s in shots
      ensures exists i :: 0 <= i < |shots| && shots[i] == s
    {
    }
    assert forall i :: 0 <= i < |shots| ==> (Usable(shots[i]) <==> OneFace(e, i));
  }

  lemma EnrollOutcome(c: Settings, st: State, user: string, e: Env)
    ensures Enroll(c, st, user, e).1 == Returned(true) <==> Enrollable(c, st, user, e) && Utf8Kinds(c)
    ensures Enroll(c, st, user, e).1.Threw? <==>
            e.models && (HasBrokenFile(c, st, user) || (Enrollable(c, st, user, e) && !Utf8Kinds(c)))
  {
    LoadMeaning(c, st, user);
    ValidIsGoodName(user);
    var doc := Lookup(c, st, user).GetOr(NewDoc(e.wall));
    AllUsable(c, e, doc);
    if EnrolledDoc(doc, Shots(c, e)).Some? && !HasBrokenFile(c, st, user) {
      EnrolledEncodable(doc, Shots(c, e));
    }
  }

  /** Camera `i` is the last of its type. */
  predicate LastOfKind(c: Settings, i: nat)
    requires i < |c.cameras|
  {
    forall k :: i < k < |c.cameras| ==> c.cameras[k].kind != c.cameras[i].kind
  }

  /** The pending embedding of every camera type is what its last camera sees; nothing else
      has changed. */
  ghost predicate EnrolledInto(c: Settings, e: Env, before: UserDoc, after: UserDoc) {
    && after.(pending := before.pending) == before
    && (forall i :: 0 <= i < |c.cameras| && LastOfKind(c, i) ==>
          && c.cameras[i].kind in after.pending && e.frames(i).Some?
          && after.pending[c.cameras[i].kind] == e.frames(i).value.embedding)
    && (forall kind :: (forall i :: 0 <= i < |c.cameras| ==> c.cameras[i].kind != kind) ==>
          && (kind in after.pending <==> kind in before.pending)
          && (kind in before.pending ==> after.pending[kind] == before.pending[kind]))
  }

  lemma EnrolledDocument(c: Settings, e: Env, before: UserDoc)
    requires EnrolledDoc(before, Shots(c, e)).Some?
    ensures EnrolledInto(c, e, before, EnrolledDoc(before, Shots(c, e)).value)
  {
    var shots := Shots(c, e);
    var after := EnrolledDoc(before, shots).value;
    forall i | 0 <= i < |c.cameras| && LastOfKind(c, i)
      ensures c.cameras[i].kind in after.pending && e.frames(i).Some?
      ensures after.pending[c.cameras[i].kind] == e.frames(i).value.embedding
    {
      EnrolledPending(before, shots, c.cameras[i].kind);
      assert shots[i].camera.kind == c.cameras[i].kind;
    }
    forall kind | forall i :: 0 <= i < |c.cameras| ==> c.cameras[i].kind != kind
      ensures kind in after.pending <==> kind in before.pending
      ensures kind in before.pending ==> after.pending[kind] == before.pending[kind]
    {
      EnrolledPending(before, shots, kind);
    }
  }

  /** A new user's document starts at the calendar time. */
  lemma EnrollEffect(c: Settings, st: State, user: string, e: Env)
    requires Enroll(c, st, user, e).1 == Returned(true)
    ensures var after := Enroll(c, st, user, e).0;
            && HasDocument(c, after, user)
            && var before := if HasDocument(c, st, user) then DocumentOf(c, st, user)
                             else UserDoc(Some(e.wall), map[], map[], map[]);
               EnrolledInto(c, e, before, DocumentOf(c, after, user))
  {
    var after := Enroll(c, st, user, e).0;
    EnrolledState(c, st, after, user, e);
    LoadMeaning(c, st, user);
    LoadMeaning(c, after, user);
    EnrolledDocument(c, e, Lookup(c, st, user).GetOr(NewDoc(e.wall)));
  }

  // ---------------------------------------------------------------------------
  // Lists and entries
  // ---------------------------------------------------------------------------

  /** The labelled list of a type is its array, else its old single embedding. */
  lemma ViewMeaning(doc: UserDoc, kind: string)
    ensures kind in doc.arrays ==>
              && |View(doc, kind)| == |doc.arrays[kind]|
              && forall i :: 0 <= i < |doc.arrays[kind]| ==>
                   View(doc, kind)[i] == Labelled(doc.arrays[kind][i].tag, doc.arrays[kind][i].data)
    ensures kind !in doc.arrays ==>
              View(doc, kind) == if kind in doc.legacy then [Labelled("default", doc.legacy[kind])] else []
  {
  }

  /** The entries a type starts from: an old single embedding becomes the entry "default",
      as old as the document. */
  function Entries(doc: UserDoc, kind: string, wall: nat): seq<Entry> {
    if kind in doc.arrays then doc.arrays[kind]
    else if kind !in doc.legacy then []
    else
      match doc.created
      case Some(time) => [Entry("default", doc.legacy[kind], time, None)]
      case None => [Entry("default", doc.legacy[kind], wall, None)]
  }

  /** `i` is the first entry with the label. */
  ghost predicate FirstEntry(es: seq<Entry>, tag: string, i: int) {
    0 <= i < |es| && es[i].tag == tag && forall k :: 0 <= k < i ==> es[k].tag != tag
  }

  ghost predicate NoEntry(es: seq<Entry>, tag: string) {
    forall k :: 0 <= k < |es| ==> es[k].tag != tag
  }

  /** `kinds` of the document `before` got new arrays and lost their old single embedding;
      nothing else about lists has changed. */
  ghost predicate OnlyLists(before: UserDoc, after: UserDoc, kinds: set<string>) {
    && after.created == before.created
    && (forall k :: k in after.arrays <==> k in before.arrays || k in kinds)
    && (forall k :: k in before.arrays && k !in kinds ==> after.arrays[k] == before.arrays[k])
    && (forall k :: k in after.legacy <==> k in before.legacy && (k in before.arrays || k !in kinds))
    && (forall k :: k in after.legacy ==> after.legacy[k] == before.legacy[k])
  }

  lemma EntriesAre(doc: UserDoc, kind: string, wall: nat)
    ensures Base(doc, kind, wall) == Entries(doc, kind, wall)
    ensures |View(doc, kind)| == |Entries(doc, kind, wall)|
    ensures forall tag :: HasLabel(View(doc, kind), tag) <==> !NoEntry(Entries(doc, kind, wall), tag)
  {
    assert Project(Base(doc, kind, wall)) == View(doc, kind);
    forall tag
      ensures HasLabel(View(doc, kind), tag) <==> !NoEntry(Entries(doc, kind, wall), tag)
    {
      assert forall i :: 0 <= i < |View(doc, kind)| ==> View(doc, kind)[i].tag == Base(doc, kind, wall)[i].tag;
    }
  }

  lemma OnlyTheseLists(before: UserDoc, lists: map<string, seq<Entry>>)
    ensures OnlyLists(before, WithArrays(before, lists), lists.Keys)
    ensures forall k :: k in lists ==> WithArrays(before, lists).arrays[k] == lists[k]
    ensures WithArrays(before, lists).pending == before.pending
  {
  }

  // ---------------------------------------------------------------------------
  // Labelling
  // ---------------------------------------------------------------------------

  /** The camera types with a pending embedding. */
  function PendingTypes(c: Settings, doc: UserDoc): set<string> {
    set i | 0 <= i < |c.cameras| && c.cameras[i].kind in doc.pending :: c.cameras[i].kind
  }

  lemma PendingTypesAre(c: Settings, doc: UserDoc)
    ensures PendingTypes(c, doc) == PendingKinds(c.cameras, doc)
  {
    forall k
      ensures k in PendingTypes(c, doc) <==> k in PendingKinds(c.cameras, doc)
    {
      if k in PendingKinds(c.cameras, doc) {
        var cam :| cam in c.cameras && cam.kind in doc.pending && cam.kind == k;
        var i :| 0 <= i < |c.cameras| && c.cameras[i] == cam;
        assert c.cameras[i].kind in PendingTypes(c, doc);
      }
      if k in PendingTypes(c, doc) {
        var i :| 0 <= i < |c.cameras| && c.cameras[i].kind in doc.pending && c.cameras[i].kind == k;
        assert c.cameras[i] in c.cameras;
      }
    }
  }

  /** The list of the type is full and does not have the label. */
  ghost predicate NoRoom(c: Settings, doc: UserDoc, kind: string, tag: string, wall: nat) {
    && c.maxEmbeddings > 0 && |Entries(doc, kind, wall)| >= c.maxEmbeddings
    && NoEntry(Entries(doc, kind, wall), tag)
  }

  /** The user has a document, some camera type is pending, and all of those have room. */
  ghost predicate CanLabel(c: Settings, st: State, user: string, tag: string, e: Env) {
    && HasDocument(c, st, user)
    && var doc := DocumentOf(c, st, user);
       && PendingTypes(c, doc) != {}
       && forall k :: k in PendingTypes(c, doc) ==> !NoRoom(c, doc, k, tag, e.wall)
  }

  lemma LabelPossible(c: Settings, doc: UserDoc, tag: string, wall: nat)
    ensures LabelledDoc(c, doc, tag, wall).Some? <==>
            PendingTypes(c, doc) != {} && forall k :: k in PendingTypes(c, doc) ==> !NoRoom(c, doc, k, tag, wall)
  {
    PendingTypesAre(c, doc);
    forall k
      ensures Full(c, doc, k, tag) <==> NoRoom(c, doc, k, tag, wall)
    {
      EntriesAre(doc, k, wall);
    }
  }

  lemma LabelOutcome(c: Settings, st: State, user: string, tag: string, e: Env)
    ensures SetLabel(c, st, user, tag, e).1 == Returned(true) <==>
            CanLabel(c, st, user, tag, e) && IsUtf8(tag) && IsUtf8(c.modelVersion)
    ensures SetLabel(c, st, user, tag, e).1.Threw? <==>
            || HasBrokenFile(c, st, user)
            || (CanLabel(c, st, user, tag, e) && !(IsUtf8(tag) && IsUtf8(c.modelVersion)))
  {
    LoadMeaning(c, st, user);
    if HasDocument(c, st, user) {
      var doc := DocumentOf(c, st, user);
      LabelPossible(c, doc, tag, e.wall);
      if LabelledDoc(c, doc, tag, e.wall).Some? {
        LabelledEncodable(c, doc, tag, e.wall);
      }
    }
  }

  /** `after` is `before` with `e` in place of the first entry under its label, or behind
      all entries when there is none. */
  ghost predicate IsEntryUpsert(before: seq<Entry>, after: seq<Entry>, e: Entry) {
    && (forall i :: FirstEntry(before, e.tag, i) ==> after == before[i := e])
    && (NoEntry(before, e.tag) ==> after == before + [e])
  }

  /** Every pending camera type stores its embedding under the label, in place of the first
      entry that has it or behind all others, and is pending no longer. */
  ghost predicate LabelledInto(c: Settings, before: UserDoc, after: UserDoc, tag: string, wall: nat) {
    var kinds := PendingTypes(c, before);
    && OnlyLists(before, after, kinds)
    && (forall k :: k in kinds ==>
          && k in after.arrays && k in before.pending
          && IsEntryUpsert(Entries(before, k, wall), after.arrays[k],
                           Entry(tag, before.pending[k], wall, Some(c.modelVersion))))
    && (forall k :: k in after.pending <==> k in before.pending && k !in kinds)
    && (forall k :: k in after.pending ==> after.pending[k] == before.pending[k])
  }

  lemma UpsertMeaning(es: seq<Entry>, e: Entry)
    ensures IsEntryUpsert(es, Upsert(es, e), e)
  {
    forall i | FirstEntry(es, e.tag, i)
      ensures Upsert(es, e) == es[i := e]
    {
      IndexIs(es, e.tag, i);
    }
    if NoEntry(es, e.tag) {
      IndexIs(es, e.tag, |es|);
    }
  }

  lemma LabelledDocument(c: Settings, before: UserDoc, tag: string, wall: nat)
    requires LabelledDoc(c, before, tag, wall).Some?
    ensures LabelledInto(c, before, LabelledDoc(c, before, tag, wall).value, tag, wall)
  {
    PendingTypesAre(c, before);
    var kinds := PendingTypes(c, before);
    var lists := LabelledArrays(c, before, kinds, tag, wall);
    OnlyTheseLists(before, lists);
    assert lists.Keys == kinds;
    forall k | k in kinds
      ensures IsEntryUpsert(Entries(before, k, wall), lists[k],
                            Entry(tag, before.pending[k], wall, Some(c.modelVersion)))
    {
      EntriesAre(before, k, wall);
      UpsertMeaning(Base(before, k, wall), Entry(tag, before.pending[k], wall, Some(c.modelVersion)));
    }
  }

  lemma LabelEffect(c: Settings, st: State, user: string, tag: string, e: Env)
    requires SetLabel(c, st, user, tag, e).1 == Returned(true)
    ensures HasDocument(c, st, user) && HasDocument(c, SetLabel(c, st, user, tag, e).0, user)
    ensures LabelledInto(c, DocumentOf(c, st, user), DocumentOf(c, SetLabel(c, st, user, tag, e).0, user), tag, e.wall)
  {
    var after := SetLabel(c, st, user, tag, e).0;
    LabelledState(c, st, after, user, tag, e);
    LoadMeaning(c, st, user);
    LoadMeaning(c, after, user);
    LabelledDocument(c, DocumentOf(c, st, user), tag, e.wall);
  }

  // ---------------------------------------------------------------------------
  // Training
  // ---------------------------------------------------------------------------

  /** The camera types that see exactly one face with some camera. */
  function SeenTypes(c: Settings, e: Env): set<string> {
    set i | 0 <= i < |c.cameras| && OneFace(e, i) :: c.cameras[i].kind
  }

  lemma SeenTypesAre(c: Settings, e: Env)
    ensures SeenTypes(c, e) == LearnedKinds(Shots(c, e))
  {
    forall k
      ensures k in SeenTypes(c, e) <==> k in LearnedKinds(Shots(c, e))
    {
      LearnedIsFaces(c, e, k);
      if i :| 0 <= i < |c.cameras| && c.cameras[i].kind == k && OneFace(e, i) {
        assert c.cameras[i].kind in SeenTypes(c, e);
      }
    }
  }

  /** The user has a document, some camera sees exactly one face, and if each such face is
      to be a new embedding, no list grows beyond the cap. */
  ghost predicate CanTrain(c: Settings, st: State, user: string, createNew: bool, e: Env) {
    && e.models && HasDocument(c, st, user) && SeenTypes(c, e) != {}
    && (createNew && c.maxEmbeddings > 0 ==>
          forall k :: k in SeenTypes(c, e) ==>
            |Entries(DocumentOf(c, st, user), k, e.wall)| + |FacesFrom(c, e, k, 0)| <= c.maxEmbeddings)
  }

  ghost predicate Utf8Seen(c: Settings, tag: string, e: Env) {
    IsUtf8(tag) && forall k :: k in SeenTypes(c, e) ==> IsUtf8(k)
  }

  lemma TrainPossible(c: Settings, doc: UserDoc, tag: string, createNew: bool, e: Env)
    ensures TrainedDoc(c, doc, Shots(c, e), tag, createNew, e.wall).Some? <==>
            && SeenTypes(c, e) != {}
            && (createNew && c.maxEmbeddings > 0 ==>
                  forall k :: k in SeenTypes(c, e) ==>
                    |Entries(doc, k, e.wall)| + |FacesFrom(c, e, k, 0)| <= c.maxEmbeddings)
  {
    SeenTypesAre(c, e);
    forall k
      ensures |View(doc, k)| == |Entries(doc, k, e.wall)|
      ensures Learned(Shots(c, e), k) == FacesFrom(c, e, k, 0)
    {
      EntriesAre(doc, k, e.wall);
      LearnedIsFaces(c, e, k);
    }
  }

  lemma TrainOutcome(c: Settings, st: State, user: string, tag: string, createNew: bool, e: Env)
    ensures Train(c, st, user, tag, createNew, e).1 == Returned(true) <==>
            CanTrain(c, st, user, createNew, e) && Utf8Seen(c, tag, e)
    ensures Train(c, st, user, tag, createNew, e).1.Threw? <==>
            || (e.models && HasBrokenFile(c, st, user))
            || (CanTrain(c, st, user, createNew, e) && !Utf8Seen(c, tag, e))
  {
    LoadMeaning(c, st, user);
    SeenTypesAre(c, e);
    if e.models && HasDocument(c, st, user) {
      var doc := DocumentOf(c, st, user);
      TrainPossible(c, doc, tag, createNew, e);
      if TrainedDoc(c, doc, Shots(c, e), tag, createNew, e.wall).Some? {
        TrainedEncodable(c, doc, Shots(c, e), tag, createNew, e.wall);
      }
    }
  }

  /** New entries with a label, in order. */
  function Fresh(tag: string, vs: seq<Vector>, wall: nat): (es: seq<Entry>)
    ensures |es| == |vs| && forall i :: 0 <= i < |es| ==> es[i] == Entry(tag, vs[i], wall, None)
  {
    seq(|vs|, i requires 0 <= i < |vs| => Entry(tag, vs[i], wall, None))
  }

  /** Every camera type that saw single faces got one new entry for each, under the label
      or, without one, under the calendar time. */
  ghost predicate TrainedNewInto(c: Settings, e: Env, before: UserDoc, after: UserDoc, tag: string) {
    && OnlyLists(before, after, SeenTypes(c, e)) && after.pending == before.pending
    && var name := if tag != "" then tag else "trained_" + Decimal(e.wall);
       forall k :: k in SeenTypes(c, e) ==>
         && k in after.arrays
         && after.arrays[k] == Entries(before, k, e.wall) + Fresh(name, FacesFrom(c, e, k, 0), e.wall)
  }

  lemma {:induction false} AbsorbFresh(c: Settings, es: seq<Entry>, tag: string, vs: seq<Vector>, wall: nat)
    ensures AbsorbAll(c, true, es, tag, vs, wall) ==
            es + Fresh(if tag != "" then tag else "trained_" + Decimal(wall), vs, wall)
  {
    if vs != [] {
      AbsorbFresh(c, es, tag, vs[..|vs| - 1], wall);
    }
  }

  lemma TrainedNewDocument(c: Settings, e: Env, before: UserDoc, tag: string)
    requires TrainedDoc(c, before, Shots(c, e), tag, true, e.wall).Some?
    ensures TrainedNewInto(c, e, before, TrainedDoc(c, before, Shots(c, e), tag, true, e.wall).value, tag)
  {
    SeenTypesAre(c, e);
    var lists := TrainedArrays(c, before, Shots(c, e), tag, true, e.wall);
    OnlyTheseLists(before, lists);
    assert lists.Keys == SeenTypes(c, e);
    forall k | k in lists
      ensures var name := if tag != "" then tag else "trained_" + Decimal(e.wall);
              lists[k] == Entries(before, k, e.wall) + Fresh(name, FacesFrom(c, e, k, 0), e.wall)
    {
      EntriesAre(before, k, e.wall);
      LearnedIsFaces(c, e, k);
      AbsorbFresh(c, Base(before, k, e.wall), tag, Learned(Shots(c, e), k), e.wall);
    }
  }

  /** `x` averaged with each of `vs` from the front. */
  function Blended(c: Settings, x: Vector, vs: seq<Vector>): Vector
    decreases |vs|
  {
    if vs == [] then x else Blended(c, c.blend(x, vs[0]), vs[1..])
  }

  lemma {:induction false} BlendedSnoc(c: Settings, x: Vector, vs: seq<Vector>, v: Vector)
    ensures Blended(c, x, vs + [v]) == c.blend(Blended(c, x, vs), v)
    decreases |vs|
  {
    if vs == [] {
      assert Blended(c, x, [v]) == Blended(c, c.blend(x, v), []);
      assert [] + [v] == [v];
    } else {
      BlendedSnoc(c, c.blend(x, vs[0]), vs[1..], v);
      assert (vs + [v])[0] == vs[0] && (vs + [v])[1..] == vs[1..] + [v];
    }
  }

  /** `new'` is `es` with the first entry under the label averaged with all of `vs`, or else
      with one more entry, which starts from the first of them. */
  ghost predicate RefinedEntries(c: Settings, es: seq<Entry>, new': seq<Entry>, tag: string, vs: seq<Vector>, wall: nat)
    requires vs != []
  {
    && (forall i :: FirstEntry(es, tag, i) ==>
          new' == es[i := Entry(tag, Blended(c, es[i].data, vs), wall, es[i].model)])
    && (NoEntry(es, tag) ==> new' == es + [Entry(tag, Blended(c, vs[0], vs[1..]), wall, None)])
  }

  lemma RefineFirst(c: Settings, es: seq<Entry>, tag: string, v: Vector, wall: nat)
    ensures RefinedEntries(c, es, Absorb(c, false, es, tag, v, wall), tag, [v], wall)
  {
    forall i | FirstEntry(es, tag, i)
      ensures Absorb(c, false, es, tag, v, wall) == es[i := Entry(tag, Blended(c, es[i].data, [v]), wall, es[i].model)]
    {
      IndexIs(es, tag, i);
      assert Blended(c, es[i].data, [v]) == Blended(c, c.blend(es[i].data, v), []);
    }
    if NoEntry(es, tag) {
      IndexIs(es, tag, |es|);
      assert [v][1..] == [];
    }
  }

  lemma RefineMore(c: Settings, es: seq<Entry>, mid: seq<Entry>, tag: string, vs: seq<Vector>, v: Vector, wall: nat)
    requires vs != [] && RefinedEntries(c, es, mid, tag, vs, wall)
    ensures RefinedEntries(c, es, Absorb(c, false, mid, tag, v, wall), tag, vs + [v], wall)
  {
    forall i | FirstEntry(es, tag, i)
      ensures Absorb(c, false, mid, tag, v, wall) ==
              es[i := Entry(tag, Blended(c, es[i].data, vs + [v]), wall, es[i].model)]
    {
      IndexIs(mid, tag, i);
      BlendedSnoc(c, es[i].data, vs, v);
    }
    if NoEntry(es, tag) {
      IndexIs(mid, tag, |es|);
      BlendedSnoc(c, vs[0], vs[1..], v);
      assert (vs + [v])[0] == vs[0] && (vs + [v])[1..] == vs[1..] + [v];
    }
  }

  lemma {:induction false} AbsorbRefines(c: Settings, es: seq<Entry>, tag: string, vs: seq<Vector>, wall: nat)
    requires vs != []
    ensures RefinedEntries(c, es, AbsorbAll(c, false, es, tag, vs, wall), tag, vs, wall)
  {
    var n := |vs| - 1;
    assert vs == vs[..n] + [vs[n]];
    if n == 0 {
      assert AbsorbAll(c, false, es, tag, vs[..0], wall) == es && vs == [vs[0]];
      RefineFirst(c, es, tag, vs[0], wall);
    } else {
      AbsorbRefines(c, es, tag, vs[..n], wall);
      RefineMore(c, es, AbsorbAll(c, false, es, tag, vs[..n], wall), tag, vs[..n], vs[n], wall);
    }
  }

  ghost predicate RefinedInto(c: Settings, e: Env, before: UserDoc, after: UserDoc, tag: string) {
    && OnlyLists(before, after, SeenTypes(c, e)) && after.pending == before.pending
    && forall k :: k in SeenTypes(c, e) ==>
         && k in after.arrays && FacesFrom(c, e, k, 0) != []
         && RefinedEntries(c, Entries(before, k, e.wall), after.arrays[k], tag, FacesFrom(c, e, k, 0), e.wall)
  }

  lemma RefinedDocument(c: Settings, e: Env, before: UserDoc, tag: string)
    requires TrainedDoc(c, before, Shots(c, e), tag, false, e.wall).Some?
    ensures RefinedInto(c, e, before, TrainedDoc(c, before, Shots(c, e), tag, false, e.wall).value, tag)
  {
    SeenTypesAre(c, e);
    var lists := TrainedArrays(c, before, Shots(c, e), tag, false, e.wall);
    OnlyTheseLists(before, lists);
    assert lists.Keys == SeenTypes(c, e);
    forall k | k in lists
      ensures FacesFrom(c, e, k, 0) != []
      ensures RefinedEntries(c, Entries(before, k, e.wall), lists[k], tag, FacesFrom(c, e, k, 0), e.wall)
    {
      EntriesAre(before, k, e.wall);
      LearnedIsFaces(c, e, k);
      LearnedKindsAre(Shots(c, e), k);
      AbsorbRefines(c, Base(before, k, e.wall), tag, Learned(Shots(c, e), k), e.wall);
    }
  }

  lemma TrainedState(c: Settings, st: State, user: string, tag: string, createNew: bool, e: Env)
    requires Train(c, st, user, tag, createNew, e).1 == Returned(true)
    ensures HasDocument(c, st, user) && HasDocument(c, Train(c, st, user, tag, createNew, e).0, user)
    ensures TrainedDoc(c, DocumentOf(c, st, user), Shots(c, e), tag, createNew, e.wall) ==
            Some(DocumentOf(c, Train(c, st, user, tag, createNew, e).0, user))
  {
    LoadMeaning(c, st, user);
    var doc := TrainedDoc(c, DocumentOf(c, st, user), Shots(c, e), tag, createNew, e.wall).value;
    SaveThenLookup(c, st, user, doc);
    LoadMeaning(c, Train(c, st, user, tag, createNew, e).0, user);
  }

  lemma TrainEffect(c: Settings, st: State, user: string, tag: string, createNew: bool, e: Env)
    requires Train(c, st, user, tag, createNew, e).1 == Returned(true)
    ensures HasDocument(c, st, user) && HasDocument(c, Train(c, st, user, tag, createNew, e).0, user)
    ensures var before, after := DocumentOf(c, st, user), DocumentOf(c, Train(c, st, user, tag, createNew, e).0, user);
            if createNew then TrainedNewInto(c, e, before, after, tag) else RefinedInto(c, e, before, after, tag)
  {
    TrainedState(c, st, user, tag, createNew, e);
    if createNew {
      TrainedNewDocument(c, e, DocumentOf(c, st, user), tag);
    } else {
      RefinedDocument(c, e, DocumentOf(c, st, user), tag);
    }
  }

  // ---------------------------------------------------------------------------
  // Removal
  // ---------------------------------------------------------------------------

  /** The entries without the label, from the front. */
  function Others(es: seq<Entry>, tag: string): seq<Entry> {
    if es == [] then [] else (if es[0].tag != tag then [es[0]] else []) + Others(es[1..], tag)
  }

  lemma {:induction false} OthersSnoc(es: seq<Entry>, tag: string, e: Entry)
    ensures Others(es + [e], tag) == Others(es, tag) + if e.tag != tag then [e] else []
  {
    if es == [] {
      assert [] + [e] == [e] && [e][1..] == [];
    } else {
      OthersSnoc(es[1..], tag, e);
      assert (es + [e])[0] == es[0] && (es + [e])[1..] == es[1..] + [e];
    }
  }

  lemma {:induction false} WithoutIsOthers(es: seq<Entry>, tag: string)
    ensures Without(es, tag) == Others(es, tag)
  {
    if es != [] {
      var n := |es| - 1;
      WithoutIsOthers(es[..n], tag);
      OthersSnoc(es[..n], tag, es[n]);
      assert es == es[..n] + [es[n]];
    }
  }

  /** The array of some camera type has an entry with the label. */
  ghost predicate HasEntry(c: Settings, doc: UserDoc, tag: string) {
    exists i, k :: 0 <= i < |c.cameras| && c.cameras[i].kind in doc.arrays
                   && 0 <= k < |doc.arrays[c.cameras[i].kind]| && doc.arrays[c.cameras[i].kind][k].tag == tag
  }

  lemma RemovePossible(c: Settings, doc: UserDoc, tag: string)
    ensures RemovedDoc(c, doc, tag).Some? <==> HasEntry(c, doc, tag)
  {
    if RemovedDoc(c, doc, tag).Some? {
      var kind :| kind in CameraKinds(c.cameras) && kind in doc.arrays && HasLabel(Project(doc.arrays[kind]), tag);
      var cam :| cam in c.cameras && cam.kind == kind;
      var i :| 0 <= i < |c.cameras| && c.cameras[i] == cam;
      var k :| 0 <= k < |Project(doc.arrays[kind])| && Project(doc.arrays[kind])[k].tag == tag;
      assert doc.arrays[c.cameras[i].kind][k].tag == tag;
    }
    if HasEntry(c, doc, tag) {
      var i, k :| 0 <= i < |c.cameras| && c.cameras[i].kind in doc.arrays
                  && 0 <= k < |doc.arrays[c.cameras[i].kind]| && doc.arrays[c.cameras[i].kind][k].tag == tag;
      assert c.cameras[i] in c.cameras;
      assert Project(doc.arrays[c.cameras[i].kind])[k].tag == tag;
    }
  }

  lemma RemoveOutcome(c: Settings, st: State, user: string, tag: string)
    ensures Remove(c, st, user, tag).1 == Returned(true) <==>
            HasDocument(c, st, user) && HasEntry(c, DocumentOf(c, st, user), tag)
    ensures Remove(c, st, user, tag).1.Threw? <==> HasBrokenFile(c, st, user)
  {
    LoadMeaning(c, st, user);
    if HasDocument(c, st, user) {
      var doc := DocumentOf(c, st, user);
      RemovePossible(c, doc, tag);
      if RemovedDoc(c, doc, tag).Some? {
        RemovedEncodable(c, doc, tag);
      }
    }
  }

  /** The arrays of all camera types lose the entries with the label; nothing else has
      changed. */
  ghost predicate RemovedFrom(c: Settings, before: UserDoc, after: UserDoc, tag: string) {
    && after.(arrays := before.arrays) == before
    && after.arrays.Keys == before.arrays.Keys
    && forall k :: k in before.arrays ==>
         after.arrays[k] ==
         if exists i :: 0 <= i < |c.cameras| && c.cameras[i].kind == k then Others(before.arrays[k], tag)
         else before.arrays[k]
  }

  lemma RemovedDocument(c: Settings, before: UserDoc, tag: string)
    requires RemovedDoc(c, before, tag).Some?
    ensures RemovedFrom(c, before, RemovedDoc(c, before, tag).value, tag)
  {
    forall k | k in before.arrays
      ensures Without(before.arrays[k], tag) == Others(before.arrays[k], tag)
      ensures k in CameraKinds(c.cameras) <==> exists i :: 0 <= i < |c.cameras| && c.cameras[i].kind == k
    {
      WithoutIsOthers(before.arrays[k], tag);
      if i :| 0 <= i < |c.cameras| && c.cameras[i].kind == k {
        assert c.cameras[i] in c.cameras;
      }
    }
  }

  lemma RemoveEffect(c: Settings, st: State, user: string, tag: string)
    requires Remove(c, st, user, tag).1 == Returned(true)
    ensures HasDocument(c, st, user) && HasDocument(c, Remove(c, st, user, tag).0, user)
    ensures RemovedFrom(c, DocumentOf(c, st, user), DocumentOf(c, Remove(c, st, user, tag).0, user), tag)
  {
    LoadMeaning(c, st, user);
    var doc := RemovedDoc(c, DocumentOf(c, st, user), tag).value;
    SaveThenLookup(c, st, user, doc);
    LoadMeaning(c, Remove(c, st, user, tag).0, user);
    RemovedDocument(c, DocumentOf(c, st, user), tag);
  }

  /** In terms of the labelled lists: the entries with the label are gone from the array of
      every camera type, all else stays. */
  lemma RemoveViews(c: Settings, st: State, user: string, tag: string, kind: string)
    requires Remove(c, st, user, tag).1 == Returned(true)
    ensures HasDocument(c, st, user)
    ensures UserView(c, Remove(c, st, user, tag).0, user, kind) ==
            if kind in DocumentOf(c, st, user).arrays && exists i :: 0 <= i < |c.cameras| && c.cameras[i].kind == kind
            then Keep(UserView(c, st, user, kind), tag)
            else UserView(c, st, user, kind)
  {
    LoadMeaning(c, st, user);
    var doc := DocumentOf(c, st, user);
    RemovedIsFilter(c, doc, tag, kind);
    SaveThenLookup(c, st, user, RemovedDoc(c, doc, tag).value);
    if i :| 0 <= i < |c.cameras| && c.cameras[i].kind == kind {
      assert c.cameras[i] in c.cameras;
    }
  }

  // ---------------------------------------------------------------------------
  // Listing
  // ---------------------------------------------------------------------------

  /** A label in the array of a camera type, or the note that a camera type has an old
      single embedding. */
  ghost predicate IsListedText(c: Settings, doc: UserDoc, t: string) {
    || HasEntry(c, doc, t)
    || (t == "default (legacy)" && exists i :: 0 <= i < |c.cameras| && c.cameras[i].kind in doc.legacy)
  }

  /** Exactly these texts, in dictionary order and without repetition. */
  ghost predicate IsListing(c: Settings, doc: UserDoc, texts: seq<string>) {
    && (forall i, j :: 0 <= i < j < |texts| ==> Precedes(texts[i], texts[j]))
    && (forall t :: t in texts <==> IsListedText(c, doc, t))
  }

  /** The listing of a user is empty without a document. */
  lemma ListMeaning(c: Settings, st: State, user: string)
    ensures Listed(c, st, user).Threw? <==> HasBrokenFile(c, st, user)
    ensures Listed(c, st, user).Returned? && !HasDocument(c, st, user) ==> Listed(c, st, user).value == []
    ensures HasDocument(c, st, user) ==> IsListing(c, DocumentOf(c, st, user), Listed(c, st, user).value)
  {
    LoadMeaning(c, st, user);
    if HasDocument(c, st, user) {
      ListedDocument(c, DocumentOf(c, st, user));
    }
  }

  lemma ListedDocument(c: Settings, doc: UserDoc)
    ensures IsListing(c, doc, Listing(c.cameras, doc))
  {
    var texts := Listing(c.cameras, doc);
    ListingIsComplete(c.cameras, doc);
    forall i, j | 0 <= i < j < |texts|
      ensures Precedes(texts[i], texts[j])
    {
      LexIsDictionaryOrder(texts[i], texts[j]);
    }
    forall t
      ensures t in texts <==> IsListedText(c, doc, t)
    {
      ListedMembers(c, doc, t);
    }
  }

  lemma ListedMembers(c: Settings, doc: UserDoc, t: string)
    ensures (exists i :: 0 <= i < |c.cameras| && ListedFor(doc, c.cameras[i].kind, t)) <==> IsListedText(c, doc, t)
  {
    forall i | 0 <= i < |c.cameras| && c.cameras[i].kind in doc.arrays
      ensures HasLabel(View(doc, c.cameras[i].kind), t) <==>
              exists k :: 0 <= k < |doc.arrays[c.cameras[i].kind]| && doc.arrays[c.cameras[i].kind][k].tag == t
    {
      ViewMeaning(doc, c.cameras[i].kind);
    }
  }

  // ---------------------------------------------------------------------------
  // Everything else
  // ---------------------------------------------------------------------------

  /** No lockout and no other file has changed; a call that failed has changed nothing, and
      one that threw leaves a broken file. */
  ghost predicate SparesTheRest(c: Settings, st: State, user: string, result: (State, Outcome<bool>)) {
    && result.0.lockout == st.lockout
    && (forall path :: path != PathOf(c, user) ==>
          && (path in result.0.files <==> path in st.files)
          && (path in st.files ==> result.0.files[path] == st.files[path]))
    && (result.1 == Returned(false) ==> result.0 == st)
    && (result.1.Threw? ==> HasBrokenFile(c, result.0, user))
  }

  lemma ContainedSparesTheRest(c: Settings, st: State, user: string, result: (State, Outcome<bool>))
    requires Contained(c, st, user, result)
    ensures SparesTheRest(c, st, user, result)
  {
    LoadMeaning(c, result.0, user);
    var mine := UserFile(c, user);
    forall path | path != PathOf(c, user)
      ensures path in result.0.files <==> path in st.files
      ensures path in st.files ==> result.0.files[path] == st.files[path]
    {
      assert path in st.files <==> path in st.files - {mine};
      assert path in result.0.files <==> path in result.0.files - {mine};
      if path in st.files {
        assert (st.files - {mine})[path] == (result.0.files - {mine})[path];
      }
    }
  }

  lemma StoreOperationsSpareTheRest(c: Settings, st: State, user: string, tag: string, createNew: bool, e: Env)
    ensures SparesTheRest(c, st, user, Enroll(c, st, user, e))
    ensures SparesTheRest(c, st, user, SetLabel(c, st, user, tag, e))
    ensures SparesTheRest(c, st, user, Train(c, st, user, tag, createNew, e))
    ensures SparesTheRest(c, st, user, Remove(c, st, user, tag))
  {
    EnrollContained(c, st, user, e);
    LabelContained(c, st, user, tag, e);
    TrainContained(c, st, user, tag, createNew, e);
    RemoveContained(c, st, user, tag);
    ContainedSparesTheRest(c, st, user, Enroll(c, st, user, e));
    ContainedSparesTheRest(c, st, user, SetLabel(c, st, user, tag, e));
    ContainedSparesTheRest(c, st, user, Train(c, st, user, tag, createNew, e));
    ContainedSparesTheRest(c, st, user, Remove(c, st, user, tag));
  }
}
