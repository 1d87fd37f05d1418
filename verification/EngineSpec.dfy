/** The engine's operations as functions on the daemon's state. */
module EngineSpec {
  import opened Domain
  import opened EmbeddingStore
  import V = Verification
  import L = Lockout

  datatype AuthResult = AuthResult(success: bool, best: real)

  /** The user's document, when the name is acceptable and the user's file can be read. */
  function Lookup(c: Settings, st: State, user: string): Option<UserDoc> {
    var file := UserFile(c, user);
    if ValidUsername(user) && file in st.files && Readable(st.files[file]) then Some(st.files[file].doc) else None
  }

  /** The user has a file that the JSON parser rejects. */
  predicate Broken(c: Settings, st: State, user: string) {
    ValidUsername(user) && UserFile(c, user) in st.files && !Readable(st.files[UserFile(c, user)])
  }

  /** Checking the name, then opening and parsing the file, which may throw. */
  function Load(c: Settings, st: State, user: string): Outcome<Option<UserDoc>> {
    if Broken(c, st, user) then Threw else Returned(Lookup(c, st, user))
  }

  function Store(c: Settings, st: State, user: string, file: File): State {
    st.(files := st.files[UserFile(c, user) := file])
  }

  /** The labelled list of a user, empty without a readable document. */
  function UserView(c: Settings, st: State, user: string, kind: string): seq<Labelled> {
    var file := UserFile(c, user);
    if file in st.files && Readable(st.files[file]) then View(st.files[file].doc, kind) else []
  }

  // ---------------------------------------------------------------------------
  // Verification
  // ---------------------------------------------------------------------------

  /** The attempt gets as far as the camera loop. */
  ghost predicate Attempted(c: Settings, st: State, user: string, e: Env) {
    e.models && Lookup(c, st, user).Some? && !L.Locked(c, st.lockout, user, e.gate)
  }

  ghost function Verdict(c: Settings, st: State, user: string, e: Env): V.Decision {
    if Attempted(c, st, user, e) then V.Decide(c, Lookup(c, st, user).value, Shots(c, e))
    else V.Decision(false, false, 0.0)
  }

  ghost function Verify(c: Settings, st: State, user: string, e: Env): (State, Outcome<AuthResult>) {
    var d := Verdict(c, st, user, e);
    (if d.recorded then st.(lockout := L.Record(c, st.lockout, user, d.success, e.stamp)) else st,
     if e.models && !L.Locked(c, st.lockout, user, e.gate) && Broken(c, st, user) then Threw
     else Returned(AuthResult(d.success, d.best)))
  }

  /** Verification returns, and with success. */
  ghost predicate Accepts(c: Settings, st: State, user: string, e: Env) {
    var outcome := Verify(c, st, user, e).1;
    outcome.Returned? && outcome.value.success
  }

  // ---------------------------------------------------------------------------
  // The store operations
  // ---------------------------------------------------------------------------

  /** Opens the file for writing, which empties it, and then serializes the document:
      if that throws, the empty file stays. */
  function Save(c: Settings, st: State, user: string, doc: UserDoc): (State, Outcome<bool>) {
    if Encodable(doc) then (Store(c, st, user, Document(doc)), Returned(true))
    else (Store(c, st, user, Corrupt), Threw)
  }

  /** A store operation saves the new document, if there is one. */
  function Commit(c: Settings, st: State, user: string, doc: Option<UserDoc>): (State, Outcome<bool>) {
    if doc.Some? then Save(c, st, user, doc.value) else (st, Returned(false))
  }

  function Enroll(c: Settings, st: State, user: string, e: Env): (State, Outcome<bool>) {
    if !e.models || !ValidUsername(user) then (st, Returned(false))
    else if Broken(c, st, user) then (st, Threw)
    else Commit(c, st, user, EnrolledDoc(Lookup(c, st, user).GetOr(NewDoc(e.wall)), Shots(c, e)))
  }

  ghost function SetLabel(c: Settings, st: State, user: string, tag: string, e: Env): (State, Outcome<bool>) {
    var doc := Lookup(c, st, user);
    if Broken(c, st, user) then (st, Threw)
    else if doc.None? then (st, Returned(false))
    else Commit(c, st, user, LabelledDoc(c, doc.value, tag, e.wall))
  }

  ghost function Train(c: Settings, st: State, user: string, tag: string, createNew: bool,
                       e: Env): (State, Outcome<bool>) {
    var doc := Lookup(c, st, user);
    if !e.models then (st, Returned(false))
    else if Broken(c, st, user) then (st, Threw)
    else if doc.None? then (st, Returned(false))
    else Commit(c, st, user, TrainedDoc(c, doc.value, Shots(c, e), tag, createNew, e.wall))
  }

  ghost function Remove(c: Settings, st: State, user: string, tag: string): (State, Outcome<bool>) {
    var doc := Lookup(c, st, user);
    if Broken(c, st, user) then (st, Threw)
    else if doc.None? then (st, Returned(false))
    else Commit(c, st, user, RemovedDoc(c, doc.value, tag))
  }

  function Listed(c: Settings, st: State, user: string): Outcome<seq<string>> {
    var doc := Lookup(c, st, user);
    if Broken(c, st, user) then Threw
    else Returned(if doc.None? then [] else Listing(c.cameras, doc.value))
  }

  predicate HardwareOk(c: Settings, e: Env) {
    e.models && exists i :: 0 <= i < |c.cameras| && e.frames(i).Some?
  }
}
