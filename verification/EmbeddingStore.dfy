/** What the store operations do to one user's document, stated per camera type
    rather than camera by camera, and the simple labelled list they implement. */
module EmbeddingStore {
  import opened Text
  import opened Domain

  // ---------------------------------------------------------------------------
  // The labelled list behind both storage formats
  // ---------------------------------------------------------------------------

  datatype Labelled = Labelled(tag: string, data: Vector)

  function Project(es: seq<Entry>): (v: seq<Labelled>)
    ensures |v| == |es|
    ensures forall i :: 0 <= i < |v| ==> v[i] == Labelled(es[i].tag, es[i].data)
  {
    seq(|es|, i requires 0 <= i < |es| => Labelled(es[i].tag, es[i].data))
  }

  /** The labelled list of one camera type: the array if there is one, else the
      old single embedding under the label "default", else nothing. */
  function View(doc: UserDoc, kind: string): seq<Labelled> {
    if kind in doc.arrays then Project(doc.arrays[kind])
    else if kind in doc.legacy then [Labelled("default", doc.legacy[kind])]
    else []
  }

  ghost predicate HasLabel(v: seq<Labelled>, tag: string) {
    exists i :: 0 <= i < |v| && v[i].tag == tag
  }

  ghost predicate DistinctLabels(v: seq<Labelled>) {
    forall i, j :: 0 <= i < j < |v| ==> v[i].tag != v[j].tag
  }

  /** `i` is the first position labelled `tag`. */
  ghost predicate FirstAt(v: seq<Labelled>, tag: string, i: int) {
    0 <= i < |v| && v[i].tag == tag && forall j :: 0 <= j < i ==> v[j].tag != tag
  }

  /** `w` is `v` with `data` stored under `tag`: in place of the first entry so
      labelled, or behind all entries when there is none. */
  ghost predicate IsUpsert(v: seq<Labelled>, w: seq<Labelled>, tag: string, data: Vector) {
    if HasLabel(v, tag) then exists i :: FirstAt(v, tag, i) && w == v[i := Labelled(tag, data)]
    else w == v + [Labelled(tag, data)]
  }

  function IndexOf(es: seq<Entry>, tag: string): (i: nat)
    ensures i <= |es|
    ensures forall k :: 0 <= k < i ==> es[k].tag != tag
    ensures i < |es| ==> es[i].tag == tag
  {
    if es == [] || es[0].tag == tag then 0 else 1 + IndexOf(es[1..], tag)
  }

  lemma IndexIs(es: seq<Entry>, tag: string, n: nat)
    requires n <= |es| && (forall k :: 0 <= k < n ==> es[k].tag != tag) && (n < |es| ==> es[n].tag == tag)
    ensures IndexOf(es, tag) == n
  {
  }

  // ---------------------------------------------------------------------------
  // Migration
  // ---------------------------------------------------------------------------

  /** The array a writer of `kind` starts from. */
  function Base(doc: UserDoc, kind: string, wall: nat): seq<Entry> {
    if kind in doc.arrays then doc.arrays[kind]
    else if kind in doc.legacy then
      [Entry("default", doc.legacy[kind], if doc.created.Some? then doc.created.value else wall, None)]
    else []
  }

  /** Creates the array of `kind`, moving an old single embedding into it. */
  function InitArray(doc: UserDoc, kind: string, wall: nat): UserDoc {
    if kind in doc.arrays then doc
    else doc.(arrays := doc.arrays[kind := Base(doc, kind, wall)], legacy := doc.legacy - {kind})
  }

  lemma MigrationKeepsViews(doc: UserDoc, kind: string, wall: nat, k: string)
    ensures View(InitArray(doc, kind, wall), k) == View(doc, k)
    ensures Project(Base(doc, k, wall)) == View(doc, k)
    ensures kind in InitArray(doc, kind, wall).arrays
  {
  }

  /** `doc` with the arrays of some types replaced; a type that had no array gives
      up its old single embedding. */
  function WithArrays(doc: UserDoc, lists: map<string, seq<Entry>>): UserDoc {
    doc.(legacy := map k | k in doc.legacy && (k in doc.arrays || k !in lists) :: doc.legacy[k],
         arrays := doc.arrays + lists)
  }

  lemma ViewWithArrays(doc: UserDoc, lists: map<string, seq<Entry>>, kind: string)
    ensures View(WithArrays(doc, lists), kind) == if kind in lists then Project(lists[kind]) else View(doc, kind)
  {
  }

  /** Sets the array of `kind`, migrating first. */
  function PutArray(doc: UserDoc, kind: string, list: seq<Entry>, wall: nat): UserDoc {
    var j := InitArray(doc, kind, wall);
    j.(arrays := j.arrays[kind := list])
  }

  lemma PutArrayStep(doc: UserDoc, lists: map<string, seq<Entry>>, kind: string, list: seq<Entry>, wall: nat)
    ensures PutArray(WithArrays(doc, lists), kind, list, wall) == WithArrays(doc, lists[kind := list])
  {
    PutArrayLegacy(doc, lists, kind, list, wall);
    PutArrayArrays(doc, lists, kind, list, wall);
  }

  lemma PutArrayLegacy(doc: UserDoc, lists: map<string, seq<Entry>>, kind: string, list: seq<Entry>, wall: nat)
    ensures PutArray(WithArrays(doc, lists), kind, list, wall).legacy == WithArrays(doc, lists[kind := list]).legacy
  {
    var j, j' := PutArray(WithArrays(doc, lists), kind, list, wall), WithArrays(doc, lists[kind := list]);
    assert forall k :: k in j.legacy <==> k in j'.legacy;
  }

  lemma PutArrayArrays(doc: UserDoc, lists: map<string, seq<Entry>>, kind: string, list: seq<Entry>, wall: nat)
    ensures PutArray(WithArrays(doc, lists), kind, list, wall).arrays == WithArrays(doc, lists[kind := list]).arrays
  {
    var j, j' := PutArray(WithArrays(doc, lists), kind, list, wall), WithArrays(doc, lists[kind := list]);
    assert forall k :: k in j.arrays <==> k in j'.arrays;
  }

  lemma BaseWithArrays(doc: UserDoc, lists: map<string, seq<Entry>>, kind: string, wall: nat)
    ensures Base(WithArrays(doc, lists), kind, wall) == if kind in lists then lists[kind] else Base(doc, kind, wall)
  {
  }

  // ---------------------------------------------------------------------------
  // Enrolment
  // ---------------------------------------------------------------------------

  /** Enrolment and training accept a frame with exactly one face. */
  predicate Usable(s: Shot) {
    s.frame.Some? && s.frame.value.faces == 1
  }

  /** The embeddings the usable shots of one camera type yield, in order. */
  function Learned(shots: seq<Shot>, kind: string): seq<Vector> {
    if shots == [] then []
    else
      var s := shots[|shots| - 1];
      Learned(shots[..|shots| - 1], kind)
      + if Usable(s) && s.camera.kind == kind then [s.frame.value.embedding] else []
  }

  lemma {:induction false} LearnedFrom(shots: seq<Shot>, kind: string)
    ensures Learned(shots, kind) == [] <==> forall s :: s in shots && Usable(s) ==> s.camera.kind != kind
  {
    if shots != [] {
      var n := |shots| - 1;
      LearnedFrom(shots[..n], kind);
      assert shots == shots[..n] + [shots[n]];
    }
  }

  lemma {:induction false} LearnedPrefix(shots: seq<Shot>, n: nat, kind: string)
    requires n <= |shots|
    ensures Learned(shots[..n], kind) <= Learned(shots, kind)
    decreases |shots|
  {
    if n == |shots| {
      assert shots[..n] == shots;
    } else {
      LearnedPrefix(shots[..|shots| - 1], n, kind);
      assert shots[..|shots| - 1][..n] == shots[..n];
    }
  }

  /** The types with a usable shot. */
  function LearnedKinds(shots: seq<Shot>): set<string> {
    set s | s in shots && Usable(s) :: s.camera.kind
  }

  lemma LearnedKindsAre(shots: seq<Shot>, kind: string)
    ensures kind in LearnedKinds(shots) <==> Learned(shots, kind) != []
  {
    LearnedFrom(shots, kind);
  }

  function NewDoc(wall: nat): UserDoc {
    UserDoc(Some(wall), map[], map[], map[])
  }

  /** The last element, or nothing to speak of. */
  function Last(vs: seq<Vector>): Vector {
    if vs == [] then [] else vs[|vs| - 1]
  }

  function LearnedLast(shots: seq<Shot>): map<string, Vector> {
    map k | k in LearnedKinds(shots) :: Last(Learned(shots, k))
  }

  /** Every type that yielded an embedding gets its last one as pending. */
  function Enrolling(doc: UserDoc, shots: seq<Shot>): UserDoc {
    doc.(pending := doc.pending + LearnedLast(shots))
  }

  function EnrolledDoc(doc: UserDoc, shots: seq<Shot>): Option<UserDoc> {
    if forall s :: s in shots ==> Usable(s) then Some(Enrolling(doc, shots)) else None
  }

  // ---------------------------------------------------------------------------
  // Labelling
  // ---------------------------------------------------------------------------

  function PendingKinds(cameras: seq<Camera>, doc: UserDoc): set<string> {
    set cam | cam in cameras && cam.kind in doc.pending :: cam.kind
  }

  function Upsert(es: seq<Entry>, e: Entry): seq<Entry> {
    var i := IndexOf(es, e.tag);
    if i < |es| then es[i := e] else es + [e]
  }

  lemma UpsertIsUpsert(es: seq<Entry>, e: Entry)
    ensures IsUpsert(Project(es), Project(Upsert(es, e)), e.tag, e.data)
  {
    var i := IndexOf(es, e.tag);
    var v, w := Project(es), Project(Upsert(es, e));
    if i < |es| {
      assert FirstAt(v, e.tag, i);
      assert w == v[i := Labelled(e.tag, e.data)];
    } else {
      assert w == v + [Labelled(e.tag, e.data)];
    }
  }

  /** No room for `tag` in the list of `kind`. */
  ghost predicate Full(c: Settings, doc: UserDoc, kind: string, tag: string) {
    c.maxEmbeddings > 0 && |View(doc, kind)| >= c.maxEmbeddings && !HasLabel(View(doc, kind), tag)
  }

  function LabelledArray(c: Settings, doc: UserDoc, kind: string, tag: string, wall: nat): seq<Entry>
    requires kind in doc.pending
  {
    Upsert(Base(doc, kind, wall), Entry(tag, doc.pending[kind], wall, Some(c.modelVersion)))
  }

  function LabelledArrays(c: Settings, doc: UserDoc, kinds: set<string>, tag: string,
                          wall: nat): map<string, seq<Entry>>
    requires kinds <= doc.pending.Keys
  {
    map k | k in kinds :: LabelledArray(c, doc, k, tag, wall)
  }

  /** The pending embedding of every type in `kinds` is stored under `tag`. */
  function Labelling(c: Settings, doc: UserDoc, kinds: set<string>, tag: string, wall: nat): UserDoc
    requires kinds <= doc.pending.Keys
  {
    WithArrays(doc, LabelledArrays(c, doc, kinds, tag, wall))
    .(pending := map k | k in doc.pending && k !in kinds :: doc.pending[k])
  }

  ghost function LabelledDoc(c: Settings, doc: UserDoc, tag: string, wall: nat): Option<UserDoc> {
    var kinds := PendingKinds(c.cameras, doc);
    if kinds == {} || exists k :: k in kinds && Full(c, doc, k, tag) then None
    else Some(Labelling(c, doc, kinds, tag, wall))
  }

  // ---------------------------------------------------------------------------
  // Training
  // ---------------------------------------------------------------------------

  function TrainingLabel(tag: string, wall: nat): string {
    if tag == "" then "trained_" + Decimal(wall) else tag
  }

  function Absorb(c: Settings, createNew: bool, es: seq<Entry>, tag: string, v: Vector, wall: nat): seq<Entry> {
    if createNew then es + [Entry(TrainingLabel(tag, wall), v, wall, None)]
    else
      var i := IndexOf(es, tag);
      if i < |es| then es[i := es[i].(data := c.blend(es[i].data, v), created := wall)]
      else es + [Entry(tag, v, wall, None)]
  }

  function AbsorbAll(c: Settings, createNew: bool, es: seq<Entry>, tag: string, vs: seq<Vector>, wall: nat): seq<Entry>
  {
    if vs == [] then es
    else Absorb(c, createNew, AbsorbAll(c, createNew, es, tag, vs[..|vs| - 1], wall), tag, Last(vs), wall)
  }

  function TrainedArray(c: Settings, doc: UserDoc, shots: seq<Shot>, kind: string, tag: string,
                        createNew: bool, wall: nat): seq<Entry> {
    AbsorbAll(c, createNew, Base(doc, kind, wall), tag, Learned(shots, kind), wall)
  }

  function TrainedArrays(c: Settings, doc: UserDoc, shots: seq<Shot>, tag: string, createNew: bool,
                         wall: nat): map<string, seq<Entry>> {
    map k | k in LearnedKinds(shots) :: TrainedArray(c, doc, shots, k, tag, createNew, wall)
  }

  /** Every type with usable shots absorbs their embeddings. */
  function Training(c: Settings, doc: UserDoc, shots: seq<Shot>, tag: string, createNew: bool, wall: nat): UserDoc {
    WithArrays(doc, TrainedArrays(c, doc, shots, tag, createNew, wall))
  }

  /** New embeddings would push some list beyond the cap. */
  ghost predicate Overflows(c: Settings, doc: UserDoc, shots: seq<Shot>) {
    c.maxEmbeddings > 0 &&
    exists k :: k in LearnedKinds(shots) && |View(doc, k)| + |Learned(shots, k)| > c.maxEmbeddings
  }

  ghost function TrainedDoc(c: Settings, doc: UserDoc, shots: seq<Shot>, tag: string, createNew: bool,
                            wall: nat): Option<UserDoc> {
    if LearnedKinds(shots) == {} || (createNew && Overflows(c, doc, shots)) then None
    else Some(Training(c, doc, shots, tag, createNew, wall))
  }

  // ---------------------------------------------------------------------------
  // Removal and listing
  // ---------------------------------------------------------------------------

  function Without(es: seq<Entry>, tag: string): seq<Entry> {
    if es == [] then []
    else
      var e := es[|es| - 1];
      Without(es[..|es| - 1], tag) + if e.tag == tag then [] else [e]
  }

  function CameraKinds(cameras: seq<Camera>): set<string> {
    set cam | cam in cameras :: cam.kind
  }

  function Removing(doc: UserDoc, kinds: set<string>, tag: string): UserDoc {
    doc.(arrays := map k | k in doc.arrays :: if k in kinds then Without(doc.arrays[k], tag) else doc.arrays[k])
  }

  ghost predicate Removable(doc: UserDoc, kinds: set<string>, tag: string) {
    exists k :: k in kinds && k in doc.arrays && HasLabel(Project(doc.arrays[k]), tag)
  }

  ghost function RemovedDoc(c: Settings, doc: UserDoc, tag: string): Option<UserDoc> {
    var kinds := CameraKinds(c.cameras);
    if Removable(doc, kinds, tag) then Some(Removing(doc, kinds, tag)) else None
  }

  /** `std::set<std::string>::insert` on the sorted list of the set's elements. */
  function Insert(texts: seq<string>, text: string): seq<string> {
    if texts == [] then [text]
    else if texts[0] == text then texts
    else if LexLe(text, texts[0]) then [text] + texts
    else [texts[0]] + Insert(texts[1..], text)
  }

  function InsertTags(texts: seq<string>, es: seq<Entry>): seq<string> {
    if es == [] then texts else Insert(InsertTags(texts, es[..|es| - 1]), es[|es| - 1].tag)
  }

  const LEGACY_TEXT := "default (legacy)"

  function InsertKind(texts: seq<string>, doc: UserDoc, kind: string): seq<string> {
    var tagged := if kind in doc.arrays then InsertTags(texts, doc.arrays[kind]) else texts;
    if kind in doc.legacy then Insert(tagged, LEGACY_TEXT) else tagged
  }

  function Listing(cameras: seq<Camera>, doc: UserDoc): seq<string> {
    if cameras == [] then []
    else InsertKind(Listing(cameras[..|cameras| - 1], doc), doc, cameras[|cameras| - 1].kind)
  }
}
