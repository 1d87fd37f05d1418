/** What the store operations mean for the labelled lists, type by type. */
module StoreProperties {
  import opened Text
  import opened Domain
  import opened EmbeddingStore
  import V = Verification

  // ---------------------------------------------------------------------------
  // Refinement: each writer as an operation on labelled lists
  // ---------------------------------------------------------------------------

  lemma EnrolledKeepsViews(doc: UserDoc, shots: seq<Shot>, kind: string)
    requires EnrolledDoc(doc, shots).Some?
    ensures View(EnrolledDoc(doc, shots).value, kind) == View(doc, kind)
  {
  }

  /** An enrolment leaves as pending, for every camera type, what the last camera of
      that type saw, and no other pending embedding changes. */
  lemma {:induction false} LearnedLastIsLast(shots: seq<Shot>, i: nat)
    requires i < |shots| && Usable(shots[i])
    requires forall k :: i < k < |shots| ==> !(Usable(shots[k]) && shots[k].camera.kind == shots[i].camera.kind)
    ensures Learned(shots, shots[i].camera.kind) != []
    ensures Last(Learned(shots, shots[i].camera.kind)) == shots[i].frame.value.embedding
  {
    var n := |shots| - 1;
    if i < n {
      LearnedLastIsLast(shots[..n], i);
      assert Learned(shots, shots[i].camera.kind) == Learned(shots[..n], shots[i].camera.kind) + [];
    }
  }

  lemma EnrolledPending(doc: UserDoc, shots: seq<Shot>, kind: string)
    requires EnrolledDoc(doc, shots).Some?
    ensures var after := EnrolledDoc(doc, shots).value;
            if exists i :: 0 <= i < |shots| && shots[i].camera.kind == kind then
              kind in after.pending &&
              forall i :: 0 <= i < |shots| && shots[i].camera.kind == kind
                          && (forall k :: i < k < |shots| ==> shots[k].camera.kind != kind)
                ==> shots[i].frame.Some? && after.pending[kind] == shots[i].frame.value.embedding
            else
              && (kind in after.pending <==> kind in doc.pending)
              && (kind in doc.pending ==> after.pending[kind] == doc.pending[kind])
  {
    assert forall i :: 0 <= i < |shots| ==> shots[i] in shots && Usable(shots[i]);
    forall i | 0 <= i < |shots| && shots[i].camera.kind == kind
        && (forall k :: i < k < |shots| ==> shots[k].camera.kind != kind)
      ensures Usable(shots[i]) && Last(Learned(shots, kind)) == shots[i].frame.value.embedding
    {
      LearnedLastIsLast(shots, i);
    }
  }

  /** A successful labelling upserts the pending embedding of every active type that
      had one and consumes it, and leaves every other type as it was. */
  lemma LabelledIsUpsert(c: Settings, doc: UserDoc, tag: string, wall: nat, kind: string)
    requires LabelledDoc(c, doc, tag, wall).Some?
    ensures var after := LabelledDoc(c, doc, tag, wall).value;
            if kind in PendingKinds(c.cameras, doc) then
              IsUpsert(View(doc, kind), View(after, kind), tag, doc.pending[kind]) && kind !in after.pending
            else
              && View(after, kind) == View(doc, kind)
              && (kind in after.pending <==> kind in doc.pending)
              && (kind in doc.pending ==> after.pending[kind] == doc.pending[kind])
  {
    var kinds := PendingKinds(c.cameras, doc);
    ViewWithArrays(doc, LabelledArrays(c, doc, kinds, tag, wall), kind);
    if kind in kinds {
      UpsertIsUpsert(Base(doc, kind, wall), Entry(tag, doc.pending[kind], wall, Some(c.modelVersion)));
      MigrationKeepsViews(doc, kind, wall, kind);
    }
  }

  /** Beyond the view: the labelled entry carries the calendar time and the model, a
      migrated one its document's creation time, and every other entry stays whole. */
  lemma LabelledEntries(c: Settings, doc: UserDoc, tag: string, wall: nat, kind: string)
    requires LabelledDoc(c, doc, tag, wall).Some? && kind in PendingKinds(c.cameras, doc)
    ensures var before, after := Base(doc, kind, wall), LabelledDoc(c, doc, tag, wall).value.arrays[kind];
            && |before| <= |after|
            && forall i :: 0 <= i < |after| ==>
                 if i < |before| && i != IndexOf(before, tag) then after[i] == before[i]
                 else after[i] == Entry(tag, doc.pending[kind], wall, Some(c.modelVersion))
    ensures kind !in doc.arrays && kind in doc.legacy ==>
              Base(doc, kind, wall) == [Entry("default", doc.legacy[kind], doc.created.GetOr(wall), None)]
  {
    UpsertEntries(Base(doc, kind, wall), Entry(tag, doc.pending[kind], wall, Some(c.modelVersion)));
  }

  lemma UpsertEntries(es: seq<Entry>, e: Entry)
    ensures var after := Upsert(es, e);
            && |es| <= |after|
            && forall i :: 0 <= i < |after| ==> after[i] == if i < |es| && i != IndexOf(es, e.tag) then es[i] else e
  {
  }

  /** Labelling fails exactly when no active type is pending or some pending active
      type is full and lacks the label. */
  lemma LabellingFails(c: Settings, doc: UserDoc, tag: string, wall: nat)
    ensures LabelledDoc(c, doc, tag, wall).None? <==>
            || (forall i :: 0 <= i < |c.cameras| ==> c.cameras[i].kind !in doc.pending)
            || exists i :: 0 <= i < |c.cameras| && c.cameras[i].kind in doc.pending
                && Full(c, doc, c.cameras[i].kind, tag)
  {
    var kinds := PendingKinds(c.cameras, doc);
    assert forall i :: 0 <= i < |c.cameras| && c.cameras[i].kind in doc.pending ==> c.cameras[i].kind in kinds;
  }

  function Tagged(tag: string, vs: seq<Vector>): (v: seq<Labelled>)
    ensures |v| == |vs| && forall i :: 0 <= i < |v| ==> v[i] == Labelled(tag, vs[i])
  {
    seq(|vs|, i requires 0 <= i < |vs| => Labelled(tag, vs[i]))
  }

  lemma {:induction false} AbsorbNew(c: Settings, es: seq<Entry>, tag: string, vs: seq<Vector>, wall: nat)
    ensures Project(AbsorbAll(c, true, es, tag, vs, wall)) == Project(es) + Tagged(TrainingLabel(tag, wall), vs)
  {
    if vs != [] {
      AbsorbNew(c, es, tag, vs[..|vs| - 1], wall);
    }
  }

  /** Training a new embedding appends what the usable cameras of each type saw. */
  lemma TrainedNewAppends(c: Settings, doc: UserDoc, shots: seq<Shot>, tag: string, wall: nat, kind: string)
    requires TrainedDoc(c, doc, shots, tag, true, wall).Some?
    ensures View(TrainedDoc(c, doc, shots, tag, true, wall).value, kind) ==
            View(doc, kind) + Tagged(TrainingLabel(tag, wall), Learned(shots, kind))
  {
    ViewWithArrays(doc, TrainedArrays(c, doc, shots, tag, true, wall), kind);
    LearnedKindsAre(shots, kind);
    MigrationKeepsViews(doc, kind, wall, kind);
    AbsorbNew(c, Base(doc, kind, wall), tag, Learned(shots, kind), wall);
  }

  /** `x` averaged with each of `vs` in turn. */
  function BlendAll(c: Settings, x: Vector, vs: seq<Vector>): Vector {
    if vs == [] then x else c.blend(BlendAll(c, x, vs[..|vs| - 1]), vs[|vs| - 1])
  }

  /** `w` is `v` after refining `tag` with `vs`: the first entry so labelled is averaged
      with all of them, or else one entry starting from the first is appended. */
  ghost predicate IsRefinement(c: Settings, v: seq<Labelled>, w: seq<Labelled>, tag: string, vs: seq<Vector>) {
    && (forall i :: FirstAt(v, tag, i) ==> w == v[i := Labelled(tag, BlendAll(c, v[i].data, vs))])
    && (!HasLabel(v, tag) ==> w == v + if vs == [] then [] else [Labelled(tag, BlendAll(c, vs[0], vs[1..]))])
  }

  lemma {:induction false} AbsorbRefine(c: Settings, es: seq<Entry>, tag: string, vs: seq<Vector>, wall: nat)
    ensures IsRefinement(c, Project(es), Project(AbsorbAll(c, false, es, tag, vs, wall)), tag, vs)
  {
    if vs == [] {
      RefinedByNothing(c, Project(es), tag);
    } else {
      var n := |vs| - 1;
      AbsorbRefine(c, es, tag, vs[..n], wall);
      AbsorbOne(c, es, AbsorbAll(c, false, es, tag, vs[..n], wall), tag, vs, wall);
    }
  }

  lemma RefinedByNothing(c: Settings, v: seq<Labelled>, tag: string)
    ensures IsRefinement(c, v, v, tag, [])
  {
    forall i | FirstAt(v, tag, i)
      ensures v == v[i := Labelled(tag, BlendAll(c, v[i].data, []))]
    {
      assert v[i] == Labelled(tag, v[i].data);
    }
    assert v + [] == v;
  }

  lemma AbsorbOne(c: Settings, es: seq<Entry>, mid: seq<Entry>, tag: string, vs: seq<Vector>, wall: nat)
    requires vs != [] && IsRefinement(c, Project(es), Project(mid), tag, vs[..|vs| - 1])
    ensures IsRefinement(c, Project(es), Project(Absorb(c, false, mid, tag, Last(vs), wall)), tag, vs)
  {
    var n := |vs| - 1;
    var v := Project(es);
    if HasLabel(v, tag) {
      var first := FirstLabelled(v, tag);
      AbsorbAt(c, mid, v, tag, first, BlendAll(c, v[first].data, vs[..n]), Last(vs), wall);
    } else if n == 0 {
      assert v + [] == v;
      AbsorbBehind(c, mid, v, tag, Last(vs), wall);
    } else {
      assert vs[..n][1..] == vs[1..][..n - 1];
      var w := v + [Labelled(tag, BlendAll(c, vs[0], vs[1..][..n - 1]))];
      AbsorbAt(c, mid, w, tag, |v|, w[|v|].data, Last(vs), wall);
      assert w[|v| := w[|v|]] == w;
    }
  }

  lemma AbsorbAt(c: Settings, mid: seq<Entry>, v: seq<Labelled>, tag: string, at: nat, x: Vector,
                 new': Vector, wall: nat)
    requires FirstAt(v, tag, at) && Project(mid) == v[at := Labelled(tag, x)]
    ensures Project(Absorb(c, false, mid, tag, new', wall)) == v[at := Labelled(tag, c.blend(x, new'))]
  {
    assert forall k :: 0 <= k < |mid| ==> Project(mid)[k].tag == mid[k].tag;
    IndexIs(mid, tag, at);
  }

  lemma AbsorbBehind(c: Settings, mid: seq<Entry>, v: seq<Labelled>, tag: string, x: Vector, wall: nat)
    requires !HasLabel(v, tag) && Project(mid) == v
    ensures Project(Absorb(c, false, mid, tag, x, wall)) == v + [Labelled(tag, x)]
  {
    assert forall k :: 0 <= k < |mid| ==> Project(mid)[k].tag == mid[k].tag;
    IndexIs(mid, tag, |mid|);
  }

  lemma TrainedRefines(c: Settings, doc: UserDoc, shots: seq<Shot>, tag: string, wall: nat, kind: string)
    requires TrainedDoc(c, doc, shots, tag, false, wall).Some?
    ensures var after := TrainedDoc(c, doc, shots, tag, false, wall).value;
            IsRefinement(c, View(doc, kind), View(after, kind), tag, Learned(shots, kind))
  {
    ViewWithArrays(doc, TrainedArrays(c, doc, shots, tag, false, wall), kind);
    MigrationKeepsViews(doc, kind, wall, kind);
    LearnedKindsAre(shots, kind);
    RefinedByNothing(c, View(doc, kind), tag);
    AbsorbRefine(c, Base(doc, kind, wall), tag, Learned(shots, kind), wall);
  }

  /** The entries of `v` not labelled `tag`, in order. */
  function Keep(v: seq<Labelled>, tag: string): seq<Labelled> {
    if v == [] then []
    else Keep(v[..|v| - 1], tag) + if v[|v| - 1].tag == tag then [] else [v[|v| - 1]]
  }

  lemma {:induction false} WithoutIsKeep(es: seq<Entry>, tag: string)
    ensures Project(Without(es, tag)) == Keep(Project(es), tag)
  {
    if es != [] {
      var n := |es| - 1;
      WithoutIsKeep(es[..n], tag);
      assert Project(es)[..n] == Project(es[..n]);
      assert Project(Without(es, tag)) == Project(Without(es[..n], tag))
          + if es[n].tag == tag then [] else [Labelled(es[n].tag, es[n].data)];
    }
  }

  lemma {:induction false} KeepIsFilter(v: seq<Labelled>, tag: string)
    ensures forall i :: 0 <= i < |Keep(v, tag)| ==> Keep(v, tag)[i] in v && Keep(v, tag)[i].tag != tag
    ensures forall i :: 0 <= i < |v| && v[i].tag != tag ==> v[i] in Keep(v, tag)
    ensures |Keep(v, tag)| <= |v|
    ensures DistinctLabels(v) ==> DistinctLabels(Keep(v, tag))
  {
    if v != [] {
      var n := |v| - 1;
      KeepIsFilter(v[..n], tag);
      assert forall i :: 0 <= i < n ==> v[..n][i] == v[i];
      if DistinctLabels(v) && v[n].tag != tag {
        forall i | 0 <= i < |Keep(v[..n], tag)|
          ensures Keep(v[..n], tag)[i].tag != v[n].tag
        {
          assert Keep(v[..n], tag)[i] in v[..n];
        }
      }
    }
  }

  /** Removal filters the arrays of the active types. It never touches an old single
      embedding, and a type that had an array keeps one, so no embedding hidden
      behind an array comes back when the array is emptied. */
  lemma RemovedIsFilter(c: Settings, doc: UserDoc, tag: string, kind: string)
    requires RemovedDoc(c, doc, tag).Some?
    ensures var after := RemovedDoc(c, doc, tag).value;
            && View(after, kind) == (if kind in CameraKinds(c.cameras) && kind in doc.arrays
                then Keep(View(doc, kind), tag) else View(doc, kind))
            && after.arrays.Keys == doc.arrays.Keys && after.legacy == doc.legacy && after.pending == doc.pending
  {
    if kind in doc.arrays {
      WithoutIsKeep(doc.arrays[kind], tag);
    }
  }

  /** Asking to remove "default" leaves an old single embedding in place, although
      its list shows it under that very label. */
  lemma LegacyIsNotRemoved(c: Settings, doc: UserDoc, kind: string)
    requires kind in doc.legacy && kind !in doc.arrays
    requires RemovedDoc(c, doc, "default").Some?
    ensures HasLabel(View(RemovedDoc(c, doc, "default").value, kind), "default")
  {
    RemovedIsFilter(c, doc, "default", kind);
    assert View(doc, kind)[0].tag == "default";
  }

  /** Under an active type that is the only case: after a successful removal the label is
      left exactly as the "default" of an old single embedding. */
  lemma LabelSurvivesRemoval(c: Settings, doc: UserDoc, tag: string, kind: string)
    requires RemovedDoc(c, doc, tag).Some? && kind in CameraKinds(c.cameras)
    ensures HasLabel(View(RemovedDoc(c, doc, tag).value, kind), tag) <==>
            kind !in doc.arrays && kind in doc.legacy && tag == "default"
  {
    var after := View(RemovedDoc(c, doc, tag).value, kind);
    RemovedIsFilter(c, doc, tag, kind);
    KeepIsFilter(View(doc, kind), tag);
    if kind !in doc.arrays && kind in doc.legacy {
      assert after == [Labelled("default", doc.legacy[kind])];
      assert after[0].tag == "default";
    }
  }

  // ---------------------------------------------------------------------------
  // Monotone decisions
  // ---------------------------------------------------------------------------

  lemma TrainedNewStoresMore(c: Settings, doc: UserDoc, shots: seq<Shot>, tag: string, wall: nat)
    requires TrainedDoc(c, doc, shots, tag, true, wall).Some?
    ensures V.StoresAtLeast(doc, TrainedDoc(c, doc, shots, tag, true, wall).value)
  {
    var after := TrainedDoc(c, doc, shots, tag, true, wall).value;
    forall kind, i | 0 <= i < |V.Stored(doc, kind)|
      ensures V.Stored(doc, kind)[i] in V.Stored(after, kind)
    {
      TrainedNewAppends(c, doc, shots, tag, wall, kind);
      assert V.Stored(after, kind)[i] == V.Stored(doc, kind)[i];
    }
  }

  lemma RemovedStoresLess(c: Settings, doc: UserDoc, tag: string)
    requires RemovedDoc(c, doc, tag).Some?
    ensures V.StoresAtLeast(RemovedDoc(c, doc, tag).value, doc)
  {
    var after := RemovedDoc(c, doc, tag).value;
    forall kind, i | 0 <= i < |V.Stored(after, kind)|
      ensures V.Stored(after, kind)[i] in V.Stored(doc, kind)
    {
      RemovedIsFilter(c, doc, tag, kind);
      KeepIsFilter(View(doc, kind), tag);
      assert View(after, kind)[i] in View(doc, kind);
      var k :| 0 <= k < |View(doc, kind)| && View(doc, kind)[k] == View(after, kind)[i];
      assert V.Stored(doc, kind)[k] == V.Stored(after, kind)[i];
    }
  }

  // ---------------------------------------------------------------------------
  // Label uniqueness
  // ---------------------------------------------------------------------------

  ghost predicate Distinct(doc: UserDoc) {
    forall kind :: DistinctLabels(View(doc, kind))
  }

  lemma UpsertKeepsDistinct(v: seq<Labelled>, w: seq<Labelled>, tag: string, data: Vector)
    requires IsUpsert(v, w, tag, data) && DistinctLabels(v)
    ensures DistinctLabels(w)
  {
    if HasLabel(v, tag) {
      var i :| FirstAt(v, tag, i) && w == v[i := Labelled(tag, data)];
    } else {
      assert forall i :: 0 <= i < |v| ==> v[i].tag != tag;
    }
  }

  lemma LabelledKeepsDistinct(c: Settings, doc: UserDoc, tag: string, wall: nat)
    requires LabelledDoc(c, doc, tag, wall).Some? && Distinct(doc)
    ensures Distinct(LabelledDoc(c, doc, tag, wall).value)
  {
    var after := LabelledDoc(c, doc, tag, wall).value;
    forall kind
      ensures DistinctLabels(View(after, kind))
    {
      LabelledIsUpsert(c, doc, tag, wall, kind);
      assert DistinctLabels(View(doc, kind));
      if kind in PendingKinds(c.cameras, doc) {
        UpsertKeepsDistinct(View(doc, kind), View(after, kind), tag, doc.pending[kind]);
      }
    }
  }

  lemma RefinedKeepsDistinct(c: Settings, doc: UserDoc, shots: seq<Shot>, tag: string, wall: nat)
    requires TrainedDoc(c, doc, shots, tag, false, wall).Some? && Distinct(doc)
    ensures Distinct(TrainedDoc(c, doc, shots, tag, false, wall).value)
  {
    var after := TrainedDoc(c, doc, shots, tag, false, wall).value;
    forall kind
      ensures DistinctLabels(View(after, kind))
    {
      TrainedRefines(c, doc, shots, tag, wall, kind);
      assert DistinctLabels(View(doc, kind));
      RefinementKeepsDistinct(c, View(doc, kind), View(after, kind), tag, Learned(shots, kind));
    }
  }

  lemma RefinementKeepsDistinct(c: Settings, v: seq<Labelled>, w: seq<Labelled>, tag: string, vs: seq<Vector>)
    requires IsRefinement(c, v, w, tag, vs)
    ensures DistinctLabels(v) ==> DistinctLabels(w)
  {
    if HasLabel(v, tag) {
      var i := FirstLabelled(v, tag);
    }
  }

  lemma FirstLabelled(v: seq<Labelled>, tag: string) returns (i: nat)
    requires HasLabel(v, tag)
    ensures FirstAt(v, tag, i)
  {
    i := 0;
    while v[i].tag != tag
      invariant i < |v| && forall j :: 0 <= j < i ==> v[j].tag != tag
      decreases |v| - i
    {
      i := i + 1;
    }
  }

  lemma RemovedKeepsDistinct(c: Settings, doc: UserDoc, tag: string)
    requires RemovedDoc(c, doc, tag).Some? && Distinct(doc)
    ensures Distinct(RemovedDoc(c, doc, tag).value)
  {
    forall kind
      ensures DistinctLabels(View(RemovedDoc(c, doc, tag).value, kind))
    {
      RemovedIsFilter(c, doc, tag, kind);
      KeepIsFilter(View(doc, kind), tag);
      assert DistinctLabels(View(doc, kind));
    }
  }

  /** Training a new embedding keeps labels distinct exactly when no type that learned
      something already has the label or learned it from two cameras: nothing in the
      code checks either. */
  lemma TrainedNewKeepsDistinct(c: Settings, doc: UserDoc, shots: seq<Shot>, tag: string, wall: nat)
    requires TrainedDoc(c, doc, shots, tag, true, wall).Some? && Distinct(doc)
    ensures Distinct(TrainedDoc(c, doc, shots, tag, true, wall).value) <==>
            forall kind :: kind in LearnedKinds(shots) ==>
              |Learned(shots, kind)| == 1 && !HasLabel(View(doc, kind), TrainingLabel(tag, wall))
  {
    var after := TrainedDoc(c, doc, shots, tag, true, wall).value;
    forall kind
      ensures DistinctLabels(View(after, kind)) <==>
              (kind in LearnedKinds(shots) ==>
                 |Learned(shots, kind)| == 1 && !HasLabel(View(doc, kind), TrainingLabel(tag, wall)))
    {
      TrainedNewAppends(c, doc, shots, tag, wall, kind);
      LearnedKindsAre(shots, kind);
      assert DistinctLabels(View(doc, kind));
      AppendDistinct(View(doc, kind), TrainingLabel(tag, wall), Learned(shots, kind));
    }
  }

  lemma AppendDistinct(v: seq<Labelled>, tag: string, vs: seq<Vector>)
    requires DistinctLabels(v)
    ensures DistinctLabels(v + Tagged(tag, vs)) <==> vs == [] || (|vs| == 1 && !HasLabel(v, tag))
  {
    var w := v + Tagged(tag, vs);
    if vs == [] {
      assert w == v;
    } else {
      assert w[|v|].tag == tag;
      if |vs| > 1 {
        assert w[|v| + 1].tag == tag;
      }
      if HasLabel(v, tag) {
        var i :| 0 <= i < |v| && v[i].tag == tag;
        assert w[i].tag == w[|v|].tag;
      }
    }
  }

  // ---------------------------------------------------------------------------
  // The cap
  // ---------------------------------------------------------------------------

  function Max(a: int, b: int): int {
    if a > b then a else b
  }

  lemma LabelledWithinCap(c: Settings, doc: UserDoc, tag: string, wall: nat, kind: string)
    requires LabelledDoc(c, doc, tag, wall).Some? && c.maxEmbeddings > 0
    ensures |View(LabelledDoc(c, doc, tag, wall).value, kind)| <= Max(c.maxEmbeddings, |View(doc, kind)|)
  {
    LabelledIsUpsert(c, doc, tag, wall, kind);
    if kind in PendingKinds(c.cameras, doc) {
      assert !Full(c, doc, kind, tag);
    }
  }

  lemma TrainedNewWithinCap(c: Settings, doc: UserDoc, shots: seq<Shot>, tag: string, wall: nat, kind: string)
    requires TrainedDoc(c, doc, shots, tag, true, wall).Some? && c.maxEmbeddings > 0
    ensures |View(TrainedDoc(c, doc, shots, tag, true, wall).value, kind)| <= Max(c.maxEmbeddings, |View(doc, kind)|)
  {
    TrainedNewAppends(c, doc, shots, tag, wall, kind);
    LearnedKindsAre(shots, kind);
  }

  /** Refining, for which the code has no cap, adds one entry to exactly the lists of
      types that learned something and lack the label. */
  lemma RefinedGrowth(c: Settings, doc: UserDoc, shots: seq<Shot>, tag: string, wall: nat, kind: string)
    requires TrainedDoc(c, doc, shots, tag, false, wall).Some?
    ensures |View(TrainedDoc(c, doc, shots, tag, false, wall).value, kind)| ==
            |View(doc, kind)| + if kind in LearnedKinds(shots) && !HasLabel(View(doc, kind), tag) then 1 else 0
  {
    TrainedRefines(c, doc, shots, tag, wall, kind);
    LearnedKindsAre(shots, kind);
    if HasLabel(View(doc, kind), tag) {
      var i := FirstLabelled(View(doc, kind), tag);
    }
  }

  ghost predicate WithinCap(c: Settings, doc: UserDoc) {
    forall kind :: |View(doc, kind)| <= c.maxEmbeddings
  }

  /** Refining keeps all lists within the cap exactly when every type that learned
      something and lacks the label has room. */
  lemma RefinedWithinCap(c: Settings, doc: UserDoc, shots: seq<Shot>, tag: string, wall: nat)
    requires TrainedDoc(c, doc, shots, tag, false, wall).Some? && WithinCap(c, doc)
    ensures WithinCap(c, TrainedDoc(c, doc, shots, tag, false, wall).value) <==>
            forall kind :: kind in LearnedKinds(shots) && !HasLabel(View(doc, kind), tag) ==>
              |View(doc, kind)| < c.maxEmbeddings
  {
    var after := TrainedDoc(c, doc, shots, tag, false, wall).value;
    forall kind
      ensures |View(after, kind)| <= c.maxEmbeddings <==>
              (kind in LearnedKinds(shots) && !HasLabel(View(doc, kind), tag) ==> |View(doc, kind)| < c.maxEmbeddings)
    {
      RefinedGrowth(c, doc, shots, tag, wall, kind);
      assert |View(doc, kind)| <= c.maxEmbeddings;
    }
  }

  // ---------------------------------------------------------------------------
  // The cap as a limit per user
  // ---------------------------------------------------------------------------

  /** All embeddings stored under the types of a list. */
  function Total(doc: UserDoc, kinds: seq<string>): nat {
    if kinds == [] then 0
    else Total(doc, kinds[..|kinds| - 1]) + |View(doc, kinds[|kinds| - 1])|
  }

  predicate NoRepeats(kinds: seq<string>) {
    forall i, j :: 0 <= i < j < |kinds| ==> kinds[i] != kinds[j]
  }

  /** The places of these embeddings: type and position in its list. */
  function Places(doc: UserDoc, kinds: seq<string>): set<(string, int)> {
    set k, i | k in kinds && 0 <= i < |View(doc, k)| :: (k, i)
  }

  /** For a list without repetitions the total is the number of stored embeddings; on
      which list of all types it is taken makes no difference. */
  lemma {:induction false} TotalCounts(doc: UserDoc, kinds: seq<string>)
    requires NoRepeats(kinds)
    ensures Total(doc, kinds) == |Places(doc, kinds)|
  {
    if kinds == [] {
      assert Places(doc, kinds) == {};
    } else {
      var n := |kinds| - 1;
      var k := kinds[n];
      TotalCounts(doc, kinds[..n]);
      PlacesOfOne(k, |View(doc, k)|);
      var last := set i | 0 <= i < |View(doc, k)| :: (k, i);
      assert kinds == kinds[..n] + [k] && k !in kinds[..n];
      assert Places(doc, kinds) == Places(doc, kinds[..n]) + last;
      assert Places(doc, kinds[..n]) !! last;
    }
  }

  lemma {:induction false} PlacesOfOne(k: string, n: nat)
    ensures |set i | 0 <= i < n :: (k, i)| == n
  {
    if n > 0 {
      PlacesOfOne(k, n - 1);
      assert (set i | 0 <= i < n :: (k, i)) == (set i | 0 <= i < n - 1 :: (k, i)) + {(k, n - 1)};
    }
  }

  /** How many of the types have a pending embedding but no entry with the label. */
  ghost function LabelGain(c: Settings, doc: UserDoc, tag: string, kinds: seq<string>): nat {
    if kinds == [] then 0
    else
      var k := kinds[|kinds| - 1];
      LabelGain(c, doc, tag, kinds[..|kinds| - 1])
      + if k in PendingKinds(c.cameras, doc) && !HasLabel(View(doc, k), tag) then 1 else 0
  }

  /** How many embeddings the types yield. */
  function LearnedTotal(shots: seq<Shot>, kinds: seq<string>): nat {
    if kinds == [] then 0
    else LearnedTotal(shots, kinds[..|kinds| - 1]) + |Learned(shots, kinds[|kinds| - 1])|
  }

  /** How many of the types learn something and have no entry with the label. */
  ghost function RefineGain(doc: UserDoc, shots: seq<Shot>, tag: string, kinds: seq<string>): nat {
    if kinds == [] then 0
    else
      var k := kinds[|kinds| - 1];
      RefineGain(doc, shots, tag, kinds[..|kinds| - 1])
      + if k in LearnedKinds(shots) && !HasLabel(View(doc, k), tag) then 1 else 0
  }

  lemma {:induction false} EnrolledTotal(doc: UserDoc, shots: seq<Shot>, kinds: seq<string>)
    requires EnrolledDoc(doc, shots).Some?
    ensures Total(EnrolledDoc(doc, shots).value, kinds) == Total(doc, kinds)
  {
    if kinds != [] {
      EnrolledTotal(doc, shots, kinds[..|kinds| - 1]);
      EnrolledKeepsViews(doc, shots, kinds[|kinds| - 1]);
    }
  }

  /** Labelling adds one embedding per pending type that lacks the label. */
  lemma {:induction false} LabelledTotal(c: Settings, doc: UserDoc, tag: string, wall: nat, kinds: seq<string>)
    requires LabelledDoc(c, doc, tag, wall).Some?
    ensures Total(LabelledDoc(c, doc, tag, wall).value, kinds) == Total(doc, kinds) + LabelGain(c, doc, tag, kinds)
  {
    if kinds != [] {
      LabelledTotal(c, doc, tag, wall, kinds[..|kinds| - 1]);
      LabelledIsUpsert(c, doc, tag, wall, kinds[|kinds| - 1]);
    }
  }

  /** Training a new embedding adds all that was learned. */
  lemma {:induction false} TrainedNewTotal(c: Settings, doc: UserDoc, shots: seq<Shot>, tag: string, wall: nat,
                                           kinds: seq<string>)
    requires TrainedDoc(c, doc, shots, tag, true, wall).Some?
    ensures Total(TrainedDoc(c, doc, shots, tag, true, wall).value, kinds) ==
            Total(doc, kinds) + LearnedTotal(shots, kinds)
  {
    if kinds != [] {
      TrainedNewTotal(c, doc, shots, tag, wall, kinds[..|kinds| - 1]);
      TrainedNewAppends(c, doc, shots, tag, wall, kinds[|kinds| - 1]);
    }
  }

  /** Refining adds one embedding per type that learned something and lacks the label. */
  lemma {:induction false} RefinedTotal(c: Settings, doc: UserDoc, shots: seq<Shot>, tag: string, wall: nat,
                                        kinds: seq<string>)
    requires TrainedDoc(c, doc, shots, tag, false, wall).Some?
    ensures Total(TrainedDoc(c, doc, shots, tag, false, wall).value, kinds) ==
            Total(doc, kinds) + RefineGain(doc, shots, tag, kinds)
  {
    if kinds != [] {
      RefinedTotal(c, doc, shots, tag, wall, kinds[..|kinds| - 1]);
      RefinedGrowth(c, doc, shots, tag, wall, kinds[|kinds| - 1]);
    }
  }

  lemma {:induction false} RemovedTotal(c: Settings, doc: UserDoc, tag: string, kinds: seq<string>)
    requires RemovedDoc(c, doc, tag).Some?
    ensures Total(RemovedDoc(c, doc, tag).value, kinds) <= Total(doc, kinds)
  {
    if kinds != [] {
      var k := kinds[|kinds| - 1];
      RemovedTotal(c, doc, tag, kinds[..|kinds| - 1]);
      RemovedIsFilter(c, doc, tag, k);
      KeepIsFilter(View(doc, k), tag);
    }
  }

  // ---------------------------------------------------------------------------
  // Listing
  // ---------------------------------------------------------------------------

  ghost predicate Ascending(texts: seq<string>) {
    forall i, j :: 0 <= i < j < |texts| ==> texts[i] != texts[j] && LexLe(texts[i], texts[j])
  }

  lemma {:induction false} InsertIsSetInsert(texts: seq<string>, text: string)
    requires Ascending(texts)
    ensures Ascending(Insert(texts, text))
    ensures forall t :: t in Insert(texts, text) <==> t in texts || t == text
  {
    if texts != [] && texts[0] != text {
      LexTotal(text, texts[0]);
      if LexLe(text, texts[0]) {
        forall i | 0 <= i < |texts|
          ensures text != texts[i] && LexLe(text, texts[i])
        {
          if i > 0 {
            LexTransitive(text, texts[0], texts[i]);
            if text == texts[i] {
              LexAntisymmetric(text, texts[0]);
            }
          }
        }
      } else {
        InsertIsSetInsert(texts[1..], text);
        var rest := Insert(texts[1..], text);
        forall j | 0 <= j < |rest|
          ensures texts[0] != rest[j] && LexLe(texts[0], rest[j])
        {
          assert rest[j] in rest;
        }
      }
    }
  }

  lemma {:induction false} InsertTagsAddsTags(texts: seq<string>, es: seq<Entry>)
    requires Ascending(texts)
    ensures Ascending(InsertTags(texts, es))
    ensures forall t :: t in InsertTags(texts, es) <==> t in texts || HasLabel(Project(es), t)
  {
    if es != [] {
      var n := |es| - 1;
      InsertTagsAddsTags(texts, es[..n]);
      InsertIsSetInsert(InsertTags(texts, es[..n]), es[n].tag);
      forall t
        ensures HasLabel(Project(es), t) <==> HasLabel(Project(es[..n]), t) || t == es[n].tag
      {
        assert Project(es)[n].tag == es[n].tag;
        assert forall i :: 0 <= i < n ==> Project(es)[i] == Project(es[..n])[i];
      }
    }
  }

  /** What is listed for a type: the labels of its array, and a fixed text for an old
      single embedding, also when the array hides it. */
  ghost predicate ListedFor(doc: UserDoc, kind: string, text: string) {
    || (kind in doc.arrays && HasLabel(View(doc, kind), text))
    || (kind in doc.legacy && text == LEGACY_TEXT)
  }

  /** The listing is sorted, free of repetition, and complete over the active types. */
  lemma {:induction false} ListingIsComplete(cameras: seq<Camera>, doc: UserDoc)
    ensures Ascending(Listing(cameras, doc))
    ensures forall t :: t in Listing(cameras, doc) <==>
                        exists i :: 0 <= i < |cameras| && ListedFor(doc, cameras[i].kind, t)
  {
    if cameras != [] {
      var n := |cameras| - 1;
      var kind := cameras[n].kind;
      ListingIsComplete(cameras[..n], doc);
      var before := Listing(cameras[..n], doc);
      var tagged := if kind in doc.arrays then InsertTags(before, doc.arrays[kind]) else before;
      if kind in doc.arrays {
        InsertTagsAddsTags(before, doc.arrays[kind]);
      }
      if kind in doc.legacy {
        InsertIsSetInsert(tagged, LEGACY_TEXT);
      }
      forall t
        ensures t in Listing(cameras, doc) <==> exists i :: 0 <= i < |cameras| && ListedFor(doc, cameras[i].kind, t)
      {
        assert t in Listing(cameras, doc) <==> t in before || ListedFor(doc, kind, t);
        assert forall i :: 0 <= i < n ==> cameras[..n][i] == cameras[i];
      }
    }
  }
}
