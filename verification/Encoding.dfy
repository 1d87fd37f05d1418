/** Which documents of the store operations can be written as JSON text. */
module Encoding {
  import opened Text
  import opened Utf8
  import opened Domain
  import opened EmbeddingStore

  // ---------------------------------------------------------------------------
  // The strings of a document's JSON text
  // ---------------------------------------------------------------------------

  function EntryStrings(e: Entry): set<string> {
    {"label", e.tag, "data", "created"} + if e.model.Some? then {"model_version", e.model.value} else {}
  }

  function ListStrings(es: seq<Entry>): set<string> {
    set i, s | 0 <= i < |es| && s in EntryStrings(es[i]) :: s
  }

  /** Every key and every string value in the JSON text of a user's document. */
  function JsonStrings(user: string, doc: UserDoc): set<string> {
    {KeyText(UserName), user}
    + (if doc.created.Some? then {KeyText(Created)} else {})
    + (set k | k in doc.pending :: KeyText(PendingKey(k)))
    + (set k | k in doc.legacy :: KeyText(LegacyKey(k)))
    + (set k | k in doc.arrays :: KeyText(ArrayKey(k)))
    + (set k, s | k in doc.arrays && s in ListStrings(doc.arrays[k]) :: s)
  }

  predicate AllUtf8(strings: set<string>) {
    forall s | s in strings :: IsUtf8(s)
  }

  lemma EntryStringsUtf8(e: Entry)
    ensures AllUtf8(EntryStrings(e)) <==> EncodableEntry(e)
  {
    MembersUtf8(e, "label", "data", "created", "model_version");
  }

  lemma MembersUtf8(e: Entry, tag: string, data: string, created: string, model: string)
    requires Ascii(tag) && Ascii(data) && Ascii(created) && Ascii(model)
    ensures AllUtf8({tag, e.tag, data, created} + if e.model.Some? then {model, e.model.value} else {}) <==>
            EncodableEntry(e)
  {
    AsciiIsUtf8(tag);
    AsciiIsUtf8(data);
    AsciiIsUtf8(created);
    AsciiIsUtf8(model);
    var strings := {tag, e.tag, data, created} + if e.model.Some? then {model, e.model.value} else {};
    assert e.tag in strings && (e.model.Some? ==> e.model.value in strings);
  }

  lemma ListStringsUtf8(es: seq<Entry>)
    ensures AllUtf8(ListStrings(es)) <==> EncodableList(es)
  {
    forall i | 0 <= i < |es|
      ensures AllUtf8(EntryStrings(es[i])) <==> EncodableEntry(es[i])
      ensures EntryStrings(es[i]) <= ListStrings(es)
    {
      EntryStringsUtf8(es[i]);
    }
  }

  lemma KeysUtf8(doc: UserDoc)
    ensures AllUtf8(set k | k in doc.pending :: KeyText(PendingKey(k))) <==> forall k | k in doc.pending :: IsUtf8(k)
    ensures AllUtf8(set k | k in doc.legacy :: KeyText(LegacyKey(k))) <==> forall k | k in doc.legacy :: IsUtf8(k)
    ensures AllUtf8(set k | k in doc.arrays :: KeyText(ArrayKey(k))) <==> forall k | k in doc.arrays :: IsUtf8(k)
  {
    forall k: Key
      ensures IsUtf8(KeyText(k)) <==> (k.PendingKey? || k.LegacyKey? || k.ArrayKey? ==> IsUtf8(k.kind))
    {
      KeyTextIsUtf8(k);
    }
    var pending := set k | k in doc.pending :: KeyText(PendingKey(k));
    var legacy := set k | k in doc.legacy :: KeyText(LegacyKey(k));
    var arrays := set k | k in doc.arrays :: KeyText(ArrayKey(k));
    assert forall k | k in doc.pending :: KeyText(PendingKey(k)) in pending;
    assert forall k | k in doc.legacy :: KeyText(LegacyKey(k)) in legacy;
    assert forall k | k in doc.arrays :: KeyText(ArrayKey(k)) in arrays;
  }

  lemma ArraysUtf8(arrays: map<string, seq<Entry>>)
    ensures AllUtf8(set k, s | k in arrays && s in ListStrings(arrays[k]) :: s) <==>
            forall k | k in arrays :: EncodableList(arrays[k])
  {
    var all := set k, s | k in arrays && s in ListStrings(arrays[k]) :: s;
    forall k | k in arrays
      ensures AllUtf8(ListStrings(arrays[k])) <==> EncodableList(arrays[k])
      ensures ListStrings(arrays[k]) <= all
    {
      ListStringsUtf8(arrays[k]);
    }
  }

  /** A user's document can be written exactly when all strings of its JSON text are
      UTF-8. */
  lemma EncodableIsUtf8(user: string, doc: UserDoc)
    requires ValidUsername(user)
    ensures Encodable(doc) <==> AllUtf8(JsonStrings(user, doc))
  {
    KeyTextIsUtf8(UserName);
    KeyTextIsUtf8(Created);
    ValidUsernameIsUtf8(user);
    KeysUtf8(doc);
    ArraysUtf8(doc.arrays);
    JsonStringsSplit(user, doc);
  }

  lemma JsonStringsSplit(user: string, doc: UserDoc)
    ensures AllUtf8(JsonStrings(user, doc)) <==>
            && IsUtf8(KeyText(UserName)) && IsUtf8(user)
            && (doc.created.Some? ==> IsUtf8(KeyText(Created)))
            && AllUtf8(set k | k in doc.pending :: KeyText(PendingKey(k)))
            && AllUtf8(set k | k in doc.legacy :: KeyText(LegacyKey(k)))
            && AllUtf8(set k | k in doc.arrays :: KeyText(ArrayKey(k)))
            && AllUtf8(set k, s | k in doc.arrays && s in ListStrings(doc.arrays[k]) :: s)
  {
    var a := {KeyText(UserName), user};
    var b := if doc.created.Some? then {KeyText(Created)} else {};
    var p := set k | k in doc.pending :: KeyText(PendingKey(k));
    var l := set k | k in doc.legacy :: KeyText(LegacyKey(k));
    var r := set k | k in doc.arrays :: KeyText(ArrayKey(k));
    var t := set k, s | k in doc.arrays && s in ListStrings(doc.arrays[k]) :: s;
    assert JsonStrings(user, doc) == a + b + p + l + r + t;
    SixUnions(a, b, p, l, r, t);
  }

  lemma SixUnions(a: set<string>, b: set<string>, p: set<string>, l: set<string>, r: set<string>, t: set<string>)
    ensures AllUtf8(a + b + p + l + r + t) <==>
            AllUtf8(a) && AllUtf8(b) && AllUtf8(p) && AllUtf8(l) && AllUtf8(r) && AllUtf8(t)
  {
  }

  /** `json::dump` as far as it can fail: it serializes one string after the other and
      throws at the first that is not UTF-8. */
  method DumpDocument(user: string, doc: UserDoc) returns (ok: bool)
    requires ValidUsername(user)
    ensures ok <==> Encodable(doc)
  {
    EncodableIsUtf8(user, doc);
    var rest := JsonStrings(user, doc);
    while rest != {}
      invariant rest <= JsonStrings(user, doc)
      invariant AllUtf8(JsonStrings(user, doc) - rest)
      decreases rest
    {
      var s :| s in rest;
      var good := Dumps(s);
      if !good {
        return false;
      }
      rest := rest - {s};
    }
    assert JsonStrings(user, doc) - rest == JsonStrings(user, doc);
    return true;
  }

  // ---------------------------------------------------------------------------
  // The documents of the store operations
  // ---------------------------------------------------------------------------

  lemma BaseEncodable(doc: UserDoc, kind: string, wall: nat)
    requires Encodable(doc)
    ensures EncodableList(Base(doc, kind, wall))
  {
    AsciiIsUtf8("default");
  }

  lemma WithArraysEncodable(doc: UserDoc, lists: map<string, seq<Entry>>)
    requires Encodable(doc)
    ensures Encodable(WithArrays(doc, lists)) <==> forall k | k in lists :: IsUtf8(k) && EncodableList(lists[k])
  {
    var after := WithArrays(doc, lists);
    assert forall k :: k in after.arrays <==> k in doc.arrays || k in lists;
    assert forall k | k in lists :: after.arrays[k] == lists[k];
  }

  /** An enrolment can be saved iff every camera type is UTF-8. */
  lemma EnrolledEncodable(doc: UserDoc, shots: seq<Shot>)
    requires Encodable(doc) && EnrolledDoc(doc, shots).Some?
    ensures Encodable(EnrolledDoc(doc, shots).value) <==>
            forall i :: 0 <= i < |shots| ==> IsUtf8(shots[i].camera.kind)
  {
    var after := EnrolledDoc(doc, shots).value;
    assert forall i :: 0 <= i < |shots| ==> shots[i] in shots;
    assert forall i :: 0 <= i < |shots| ==> shots[i].camera.kind in LearnedKinds(shots);
    assert forall k :: k in after.pending <==> k in doc.pending || k in LearnedKinds(shots);
  }

  lemma UpsertEncodable(es: seq<Entry>, e: Entry)
    requires EncodableList(es)
    ensures EncodableList(Upsert(es, e)) <==> EncodableEntry(e)
  {
    var after := Upsert(es, e);
    assert after[IndexOf(es, e.tag)] == e;
  }

  /** A labelling can be saved iff the label and the model version are UTF-8. */
  lemma LabelledEncodable(c: Settings, doc: UserDoc, tag: string, wall: nat)
    requires Encodable(doc) && LabelledDoc(c, doc, tag, wall).Some?
    ensures Encodable(LabelledDoc(c, doc, tag, wall).value) <==> IsUtf8(tag) && IsUtf8(c.modelVersion)
  {
    var kinds := PendingKinds(c.cameras, doc);
    var lists := LabelledArrays(c, doc, kinds, tag, wall);
    WithArraysEncodable(doc, lists);
    forall k | k in kinds
      ensures IsUtf8(k)
      ensures EncodableList(lists[k]) <==> IsUtf8(tag) && IsUtf8(c.modelVersion)
    {
      BaseEncodable(doc, k, wall);
      UpsertEncodable(Base(doc, k, wall), Entry(tag, doc.pending[k], wall, Some(c.modelVersion)));
    }
    var some :| some in kinds;
    assert some in lists;
  }

  lemma {:induction false} DecimalIsAscii(n: nat)
    ensures Ascii(Decimal(n))
  {
    if n >= 10 {
      DecimalIsAscii(n / 10);
    }
  }

  lemma TrainingLabelIsUtf8(tag: string, wall: nat)
    ensures IsUtf8(TrainingLabel(tag, wall)) <==> IsUtf8(tag)
  {
    if tag == "" {
      DecimalIsAscii(wall);
      AsciiIsUtf8("trained_" + Decimal(wall));
    }
  }

  lemma AbsorbEncodable(c: Settings, createNew: bool, es: seq<Entry>, tag: string, v: Vector, wall: nat)
    ensures EncodableList(Absorb(c, createNew, es, tag, v, wall)) <==> EncodableList(es) && IsUtf8(tag)
  {
    var after := Absorb(c, createNew, es, tag, v, wall);
    var i := if createNew then |es| else IndexOf(es, tag);
    TrainingLabelIsUtf8(tag, wall);
    assert forall k :: 0 <= k < |es| ==> after[k].tag == es[k].tag && after[k].model == es[k].model;
    assert EncodableEntry(after[i]) <==> IsUtf8(tag) && (i < |es| ==> EncodableEntry(es[i]));
  }

  lemma {:induction false} AbsorbAllEncodable(c: Settings, createNew: bool, es: seq<Entry>, tag: string,
                                              vs: seq<Vector>, wall: nat)
    ensures EncodableList(AbsorbAll(c, createNew, es, tag, vs, wall)) <==>
            EncodableList(es) && (vs != [] ==> IsUtf8(tag))
  {
    if vs != [] {
      var n := |vs| - 1;
      AbsorbAllEncodable(c, createNew, es, tag, vs[..n], wall);
      AbsorbEncodable(c, createNew, AbsorbAll(c, createNew, es, tag, vs[..n], wall), tag, Last(vs), wall);
    }
  }

  /** A training can be saved iff the label and the types that learned are UTF-8. */
  lemma TrainedEncodable(c: Settings, doc: UserDoc, shots: seq<Shot>, tag: string, createNew: bool, wall: nat)
    requires Encodable(doc) && TrainedDoc(c, doc, shots, tag, createNew, wall).Some?
    ensures Encodable(TrainedDoc(c, doc, shots, tag, createNew, wall).value) <==>
            IsUtf8(tag) && forall k :: k in LearnedKinds(shots) ==> IsUtf8(k)
  {
    var lists := TrainedArrays(c, doc, shots, tag, createNew, wall);
    WithArraysEncodable(doc, lists);
    forall k | k in LearnedKinds(shots)
      ensures EncodableList(lists[k]) <==> IsUtf8(tag)
    {
      BaseEncodable(doc, k, wall);
      LearnedKindsAre(shots, k);
      AbsorbAllEncodable(c, createNew, Base(doc, k, wall), tag, Learned(shots, k), wall);
    }
    var some :| some in LearnedKinds(shots);
    assert some in lists;
  }

  lemma {:induction false} WithoutEncodable(es: seq<Entry>, tag: string)
    requires EncodableList(es)
    ensures EncodableList(Without(es, tag))
  {
    if es != [] {
      WithoutEncodable(es[..|es| - 1], tag);
    }
  }

  /** A removal can always be saved. */
  lemma RemovedEncodable(c: Settings, doc: UserDoc, tag: string)
    requires Encodable(doc) && RemovedDoc(c, doc, tag).Some?
    ensures Encodable(RemovedDoc(c, doc, tag).value)
  {
    forall k | k in doc.arrays
      ensures EncodableList(Without(doc.arrays[k], tag))
    {
      WithoutEncodable(doc.arrays[k], tag);
    }
  }
}
