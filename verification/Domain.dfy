/** The values the authentication engine works on. Cameras, face detection,
    scoring and clocks are inputs: see `Settings` and `Env`. */
module Domain {
  import opened Utf8

  datatype Option<+T> = None | Some(value: T) {
    function GetOr(default: T): T {
      if Some? then value else default
    }
  }

  /** How a call ends: with a value, or with an exception that `handle_client` catches. */
  datatype Outcome<+T> = Returned(value: T) | Threw {
    predicate IsFailure() {
      Threw?
    }

    function PropagateFailure<U>(): Outcome<U>
      requires IsFailure()
    {
      Threw
    }

    function Extract(): T
      requires !IsFailure()
    {
      value
    }
  }

  /** A face embedding, `std::vector<float>`, with real numbers for floats. */
  type Vector = seq<real>

  /** A captured image as the engine sees it: its mean brightness, the number of
      detected faces, and the embedding of the largest face. */
  datatype Frame = Frame(brightness: real, faces: nat, embedding: Vector)

  /** `Configuration::CameraDefinition`; `kind` is the source's `type`. */
  datatype Camera = Camera(id: string, path: string, kind: string, minBrightness: int, mandatory: bool)

  datatype Policy = StrictAll | LenientAny | Adaptive

  /** The configuration of a running engine, with the two library operations
      on embeddings, which stay uninterpreted. */
  datatype Settings = Settings(
    cameras: seq<Camera>,
    policy: Policy,
    threshold: real,
    maxEmbeddings: int,
    lockoutAttempts: int,
    lockoutDurationSec: int,
    usersDir: string,
    modelVersion: string,
    score: (Vector, Vector) -> real,
    blend: (Vector, Vector) -> Vector)

  /** One camera together with what it captured, if it captured anything. */
  datatype Shot = Shot(camera: Camera, frame: Option<Frame>)

  /** What the world contributes to one request: whether the models load, the
      frame of each camera by index, the monotonic clock when the lockout gate
      is read and when an attempt is recorded (in nanoseconds), the calendar
      time, and the free-form texts of replies. */
  datatype Env = Env(
    models: bool,
    frames: nat -> Option<Frame>,
    gate: nat,
    stamp: nat,
    wall: nat,
    reason: string,
    configText: string,
    versionText: string,
    logLevelText: string)

  /** The shots of every active camera, in camera order. */
  function Shots(c: Settings, e: Env): (shots: seq<Shot>)
    ensures |shots| == |c.cameras|
    ensures forall i :: 0 <= i < |shots| ==> shots[i] == Shot(c.cameras[i], e.frames(i))
  {
    seq(|c.cameras|, i requires 0 <= i < |c.cameras| => Shot(c.cameras[i], e.frames(i)))
  }

  /** One element of a labelled array; `tag` is its "label". */
  datatype Entry = Entry(tag: string, data: Vector, created: nat, model: Option<string>)

  /** A user's document, by key family and camera type. */
  datatype UserDoc = UserDoc(
    created: Option<nat>,
    pending: map<string, Vector>,
    legacy: map<string, Vector>,
    arrays: map<string, seq<Entry>>)

  predicate EncodableEntry(e: Entry) {
    IsUtf8(e.tag) && (e.model.Some? ==> IsUtf8(e.model.value))
  }

  predicate EncodableList(es: seq<Entry>) {
    forall i | 0 <= i < |es| :: EncodableEntry(es[i])
  }

  /** All strings of the document are UTF-8: as JSON text it can be written, and read. */
  predicate Encodable(doc: UserDoc) {
    && (forall k | k in doc.pending :: IsUtf8(k))
    && (forall k | k in doc.legacy :: IsUtf8(k))
    && (forall k | k in doc.arrays :: IsUtf8(k) && EncodableList(doc.arrays[k]))
  }

  /** A user's file: the JSON text of a document, or text that is no JSON, such as none. */
  datatype File = Document(doc: UserDoc) | Corrupt

  /** The JSON parser accepts the file. */
  predicate Readable(f: File) {
    f.Document? && Encodable(f.doc)
  }

  datatype LockoutState = LockoutState(failed: int, until: int)

  /** The state the daemon keeps between requests: user files and lockouts. */
  datatype State = State(files: map<string, File>, lockout: map<string, LockoutState>)

  /** The keys of a user document. */
  datatype Key = UserName | Created | PendingKey(kind: string) | LegacyKey(kind: string) | ArrayKey(kind: string)

  function KeyText(k: Key): string {
    match k
    case UserName => "username"
    case Created => "created"
    case PendingKey(t) => "_pending_" + t
    case LegacyKey(t) => "embedding_" + t
    case ArrayKey(t) => "embeddings_" + t
  }

  /** No two keys share their text, whatever the camera types are called: keeping
      the families of `UserDoc` apart loses nothing. */
  lemma KeyTextInjective(a: Key, b: Key)
    requires KeyText(a) == KeyText(b)
    ensures a == b
  {
    var s, t := KeyText(a), KeyText(b);
    assert s[0] == t[0];
    if a.PendingKey? {
      assert s[9..] == a.kind && t[9..] == b.kind;
    } else if a.LegacyKey? || a.ArrayKey? {
      assert s[9] == t[9];
      if a.LegacyKey? {
        assert s[10..] == a.kind && t[10..] == b.kind;
      } else {
        assert s[11..] == a.kind && t[11..] == b.kind;
      }
    }
  }

  /** A key is UTF-8 iff the camera type in it is. */
  lemma KeyTextIsUtf8(k: Key)
    ensures IsUtf8(KeyText(k)) <==> (k.PendingKey? || k.LegacyKey? || k.ArrayKey? ==> IsUtf8(k.kind))
  {
    match k
    case UserName => AsciiIsUtf8("username");
    case Created => AsciiIsUtf8("created");
    case PendingKey(t) => AsciiPrefix("_pending_", t);
    case LegacyKey(t) => AsciiPrefix("embedding_", t);
    case ArrayKey(t) => AsciiPrefix("embeddings_", t);
  }

  const MAX_USERNAME_LENGTH := 32

  predicate NameChar(ch: char) {
    'a' <= ch <= 'z' || 'A' <= ch <= 'Z' || '0' <= ch <= '9' || ch in {'_', '.', '-', '$'}
  }

  /** `isValidUsername` as a property of the whole name. */
  predicate ValidUsername(user: string) {
    && 1 <= |user| <= MAX_USERNAME_LENGTH
    && user[0] != '.'
    && (forall i :: 1 <= i < |user| ==> !(user[i] == '.' && user[i - 1] == '.'))
    && (forall i :: 0 <= i < |user| ==> NameChar(user[i]))
  }

  /** A valid name is a string JSON can hold. */
  lemma ValidUsernameIsUtf8(user: string)
    requires ValidUsername(user)
    ensures IsUtf8(user)
  {
    AsciiIsUtf8(user);
  }

  method IsValidUsername(user: string) returns (ok: bool)
    ensures ok <==> ValidUsername(user)
  {
    if |user| == 0 || |user| > MAX_USERNAME_LENGTH {
      return false;
    }
    if user[0] == '.' {
      return false;
    }
    for i := 1 to |user|
      invariant forall k :: 1 <= k < i ==> !(user[k] == '.' && user[k - 1] == '.')
    {
      if user[i] == '.' && user[i - 1] == '.' {
        return false;
      }
    }
    return forall i :: 0 <= i < |user| ==> NameChar(user[i]);
  }

  function UserFile(c: Settings, user: string): string {
    c.usersDir + "/" + user + ".json"
  }

  /** Two users never share a file, and a valid name adds exactly one component
      below the users directory, never a step out of it. */
  lemma UserFileInjective(c: Settings, a: string, b: string)
    requires UserFile(c, a) == UserFile(c, b)
    ensures a == b
  {
    var s, t := UserFile(c, a), UserFile(c, b);
    var d := |c.usersDir| + 1;
    assert s[d..|s| - 5] == a && t[d..|t| - 5] == b;
  }

  lemma UserFileStaysInside(c: Settings, user: string)
    requires ValidUsername(user)
    ensures var p := UserFile(c, user);
            var d := |c.usersDir| + 1;
            p[..d] == c.usersDir + "/" && '/' !in p[d..] && p[d..] != "." && p[d..] != ".."
  {
    var p := UserFile(c, user);
    assert p == (c.usersDir + "/") + (user + ".json");
    assert p[|c.usersDir| + 1..] == user + ".json";
  }
}
