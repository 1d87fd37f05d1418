/** Camera enumeration and the choice the configuration makes from it when no camera
    is configured. */
module CameraDetection {
  import opened Text
  import opened Dictionary
  import opened Domain

  datatype PixelFormat = Grey | Y10 | Y12 | Y16 | Mjpeg | Yuyv | Rgb24 | Bgr24 | Other(code: nat)

  /** `ICameraBackend`: the device paths in listing order, and what each device says. */
  datatype Backend = Backend(
    paths: seq<string>,
    isVideoCapture: string -> bool,
    formats: string -> seq<PixelFormat>)

  datatype Detected = Detected(path: string, kind: string)

  predicate IsGrey(f: PixelFormat) {
    f in {Grey, Y10, Y12, Y16}
  }

  predicate IsColor(f: PixelFormat) {
    f in {Mjpeg, Yuyv, Rgb24, Bgr24}
  }

  /** "" for a device that is no camera. */
  function Kind(b: Backend, path: string): string {
    var formats := b.formats(path);
    if !b.isVideoCapture(path) then ""
    else if exists i :: 0 <= i < |formats| && IsColor(formats[i]) then "rgb"
    else if exists i :: 0 <= i < |formats| && IsGrey(formats[i]) then "ir"
    else "generic"
  }

  /** The device offers one of the formats. */
  predicate Offers(b: Backend, path: string, wanted: set<PixelFormat>) {
    exists i :: 0 <= i < |b.formats(path)| && b.formats(path)[i] in wanted
  }

  /** A device of this kind: "rgb" with a color format, "ir" with grey formats only,
      "generic" with neither, and "" if it captures no video. */
  predicate IsKind(b: Backend, path: string, kind: string) {
    var color, grey := Offers(b, path, {Mjpeg, Yuyv, Rgb24, Bgr24}), Offers(b, path, {Grey, Y10, Y12, Y16});
    && (kind == "" <==> !b.isVideoCapture(path))
    && (kind == "rgb" <==> b.isVideoCapture(path) && color)
    && (kind == "ir" <==> b.isVideoCapture(path) && !color && grey)
    && (kind == "generic" <==> b.isVideoCapture(path) && !color && !grey)
  }

  lemma KindMeaning(b: Backend, path: string)
    ensures IsKind(b, path, Kind(b, path))
    ensures forall kind :: IsKind(b, path, kind) ==> kind == Kind(b, path)
  {
    var formats := b.formats(path);
    assert Offers(b, path, {Mjpeg, Yuyv, Rgb24, Bgr24}) <==> exists i :: 0 <= i < |formats| && IsColor(formats[i]);
    assert Offers(b, path, {Grey, Y10, Y12, Y16}) <==> exists i :: 0 <= i < |formats| && IsGrey(formats[i]);
    assert |"rgb"| == 3 && |"ir"| == 2 && |"generic"| == 7 && |""| == 0;
  }

  method ClassifyCameraType(b: Backend, path: string) returns (kind: string)
    ensures kind == Kind(b, path)
    ensures IsKind(b, path, kind)
  {
    KindMeaning(b, path);
    if !b.isVideoCapture(path) {
      return "";
    }
    var hasGrey, hasColor := false, false;
    var formats := b.formats(path);
    for i := 0 to |formats|
      invariant hasGrey <==> exists k :: 0 <= k < i && IsGrey(formats[k])
      invariant hasColor <==> exists k :: 0 <= k < i && IsColor(formats[k])
    {
      if IsGrey(formats[i]) {
        hasGrey := true;
      }
      if IsColor(formats[i]) {
        hasColor := true;
      }
    }
    if hasGrey && !hasColor {
      return "ir";
    }
    if hasColor {
      return "rgb";
    }
    if hasGrey {
      return "ir";
    }
    return "generic";
  }

  // ---------------------------------------------------------------------------
  // Sorting
  // ---------------------------------------------------------------------------

  /** `operator<=` on pairs of strings. */
  predicate AtMost(a: Detected, b: Detected) {
    if a.path == b.path then LexLe(a.kind, b.kind) else LexLe(a.path, b.path)
  }

  ghost predicate Sorted(ds: seq<Detected>) {
    forall i, j :: 0 <= i < j < |ds| ==> AtMost(ds[i], ds[j])
  }

  lemma AtMostTotal(a: Detected, b: Detected)
    ensures AtMost(a, b) || AtMost(b, a)
    ensures AtMost(a, b) && AtMost(b, a) ==> a == b
  {
    LexTotal(a.path, b.path);
    LexTotal(a.kind, b.kind);
    if AtMost(a, b) && AtMost(b, a) {
      if a.path == b.path {
        LexAntisymmetric(a.kind, b.kind);
      } else {
        LexAntisymmetric(a.path, b.path);
      }
    }
  }

  lemma AtMostTransitive(a: Detected, b: Detected, d: Detected)
    requires AtMost(a, b) && AtMost(b, d)
    ensures AtMost(a, d)
  {
    if a.path == b.path == d.path {
      LexTransitive(a.kind, b.kind, d.kind);
    } else if a.path != b.path && b.path != d.path {
      LexTransitive(a.path, b.path, d.path);
      if a.path == d.path {
        LexAntisymmetric(a.path, b.path);
      }
    }
  }

  function Insert(ds: seq<Detected>, d: Detected): seq<Detected> {
    if ds == [] then [d]
    else if AtMost(d, ds[0]) then [d] + ds
    else [ds[0]] + Insert(ds[1..], d)
  }

  lemma {:induction false} InsertAdds(ds: seq<Detected>, d: Detected)
    ensures multiset(Insert(ds, d)) == multiset(ds) + multiset{d}
  {
    if ds != [] {
      assert ds == [ds[0]] + ds[1..];
      InsertAdds(ds[1..], d);
    }
  }

  lemma {:induction false} InsertSorts(ds: seq<Detected>, d: Detected)
    requires Sorted(ds)
    ensures Sorted(Insert(ds, d))
    ensures multiset(Insert(ds, d)) == multiset(ds) + multiset{d}
  {
    InsertAdds(ds, d);
    if ds != [] {
      AtMostTotal(d, ds[0]);
      if AtMost(d, ds[0]) {
        forall i | 1 <= i < |ds|
          ensures AtMost(d, ds[i])
        {
          AtMostTransitive(d, ds[0], ds[i]);
        }
      } else {
        InsertSorts(ds[1..], d);
        AfterFirst(ds, d);
      }
    }
  }

  lemma AfterFirst(ds: seq<Detected>, d: Detected)
    requires ds != [] && Sorted(ds) && AtMost(ds[0], d)
    ensures forall i :: 0 <= i < |Insert(ds[1..], d)| ==> AtMost(ds[0], Insert(ds[1..], d)[i])
  {
    InsertAdds(ds[1..], d);
    var rest := Insert(ds[1..], d);
    forall i | 0 <= i < |rest|
      ensures AtMost(ds[0], rest[i])
    {
      assert rest[i] in multiset(rest);
    }
  }

  /** `std::sort`: any sorted rearrangement, of which there is only one. */
  method Sort(ds: seq<Detected>) returns (sorted: seq<Detected>)
    ensures Sorted(sorted) && multiset(sorted) == multiset(ds)
  {
    sorted := [];
    for i := 0 to |ds|
      invariant Sorted(sorted) && multiset(sorted) == multiset(ds[..i])
    {
      assert ds[..i + 1] == ds[..i] + [ds[i]];
      InsertSorts(sorted, ds[i]);
      sorted := Insert(sorted, ds[i]);
    }
    assert ds[..|ds|] == ds;
  }

  lemma {:induction false} SortedUnique(a: seq<Detected>, b: seq<Detected>)
    requires Sorted(a) && Sorted(b) && multiset(a) == multiset(b)
    ensures a == b
  {
    SameLength(a, b);
    if a != [] {
      SameFirst(a, b);
      WithoutFirst(a);
      WithoutFirst(b);
      SortedUnique(a[1..], b[1..]);
      assert a == [a[0]] + a[1..] && b == [b[0]] + b[1..];
    }
  }

  lemma SameFirst(a: seq<Detected>, b: seq<Detected>)
    requires a != [] && b != [] && Sorted(a) && Sorted(b) && multiset(a) == multiset(b)
    ensures a[0] == b[0]
  {
    assert a[0] in multiset(b) && b[0] in multiset(a);
    SmallestFirst(a, b[0]);
    SmallestFirst(b, a[0]);
    AtMostTotal(a[0], b[0]);
  }

  lemma SameLength(a: seq<Detected>, b: seq<Detected>)
    requires multiset(a) == multiset(b)
    ensures |a| == |b|
  {
    assert |multiset(a)| == |a| && |multiset(b)| == |b|;
  }

  lemma WithoutFirst(a: seq<Detected>)
    requires a != []
    ensures multiset(a[1..]) == multiset(a) - multiset{a[0]}
  {
    assert a == [a[0]] + a[1..];
  }

  lemma SmallestFirst(a: seq<Detected>, d: Detected)
    requires Sorted(a) && d in a
    ensures AtMost(a[0], d)
  {
    AtMostTotal(d, d);
  }

  // ---------------------------------------------------------------------------
  // Enumeration
  // ---------------------------------------------------------------------------

  function KindOf(b: Backend): string -> string {
    p => Kind(b, p)
  }

  /** The cameras among `paths`, in listing order. */
  function Cameras(kindOf: string -> string, paths: seq<string>): seq<Detected> {
    if paths == [] then []
    else
      var p := paths[|paths| - 1];
      Cameras(kindOf, paths[..|paths| - 1]) + if kindOf(p) == "" then [] else [Detected(p, kindOf(p))]
  }

  ghost predicate IsEnumeration(b: Backend, ds: seq<Detected>) {
    Sorted(ds) && multiset(ds) == multiset(Cameras(KindOf(b), b.paths))
  }

  method EnumerateCameras(b: Backend) returns (ds: seq<Detected>)
    ensures IsEnumeration(b, ds)
  {
    var cameras := [];
    for i := 0 to |b.paths|
      invariant cameras == Cameras(KindOf(b), b.paths[..i])
    {
      assert b.paths[..i + 1][..i] == b.paths[..i];
      var kind := ClassifyCameraType(b, b.paths[i]);
      if kind != "" {
        cameras := cameras + [Detected(b.paths[i], kind)];
      }
    }
    assert b.paths[..|b.paths|] == b.paths;
    ds := Sort(cameras);
  }

  /** How often a camera is found is how often its path is listed. */
  lemma {:induction false} CamerasCount(kindOf: string -> string, paths: seq<string>, d: Detected)
    ensures multiset(Cameras(kindOf, paths))[d] == if d.kind != "" && d.kind == kindOf(d.path)
                then multiset(paths)[d.path] else 0
  {
    if paths != [] {
      var n := |paths| - 1;
      CamerasCount(kindOf, paths[..n], d);
      assert paths == paths[..n] + [paths[n]];
      CountAppend(paths[..n], paths[n], d.path);
      if kindOf(paths[n]) != "" {
        CountAppend(Cameras(kindOf, paths[..n]), Detected(paths[n], kindOf(paths[n])), d);
      }
    }
  }

  lemma CountAppend<T>(xs: seq<T>, x: T, y: T)
    ensures multiset(xs + [x])[y] == multiset(xs)[y] + if x == y then 1 else 0
    ensures xs + [] == xs
  {
  }

  lemma CamerasIn(kindOf: string -> string, paths: seq<string>, d: Detected)
    ensures d in Cameras(kindOf, paths) <==> d.path in paths && d.kind != "" && d.kind == kindOf(d.path)
  {
    CamerasCount(kindOf, paths, d);
    assert d in Cameras(kindOf, paths) <==> d in multiset(Cameras(kindOf, paths));
    assert d.path in paths <==> d.path in multiset(paths);
  }

  /** The enumeration does not depend on the order in which devices are listed. */
  lemma ListingOrderIrrelevant(b: Backend, paths: seq<string>, ds: seq<Detected>, other: seq<Detected>)
    requires multiset(paths) == multiset(b.paths)
    requires IsEnumeration(b, ds) && IsEnumeration(b.(paths := paths), other)
    ensures ds == other
  {
    SameCameras(b, paths);
    SortedUnique(ds, other);
  }

  lemma SameCameras(b: Backend, paths: seq<string>)
    requires multiset(paths) == multiset(b.paths)
    ensures multiset(Cameras(KindOf(b.(paths := paths)), paths)) == multiset(Cameras(KindOf(b), b.paths))
  {
    var m, n := multiset(Cameras(KindOf(b.(paths := paths)), paths)), multiset(Cameras(KindOf(b), b.paths));
    forall d
      ensures m[d] == n[d]
    {
      CamerasCount(KindOf(b), b.paths, d);
      CamerasCount(KindOf(b.(paths := paths)), paths, d);
      KindIgnoresListing(b, paths, d.path);
    }
  }

  lemma KindIgnoresListing(b: Backend, paths: seq<string>, p: string)
    ensures Kind(b.(paths := paths), p) == Kind(b, p)
  {
  }

  /** The enumeration lists every camera as often as its path is listed, and in dictionary
      order of the paths. */
  lemma EnumerationMeaning(b: Backend, ds: seq<Detected>)
    requires IsEnumeration(b, ds)
    ensures forall i, j :: 0 <= i < j < |ds| ==> ds[i].path == ds[j].path || Precedes(ds[i].path, ds[j].path)
    ensures forall d: Detected :: multiset(ds)[d] ==
                                  if d.kind != "" && IsKind(b, d.path, d.kind) then multiset(b.paths)[d.path] else 0
  {
    forall i, j | 0 <= i < j < |ds|
      ensures ds[i].path == ds[j].path || Precedes(ds[i].path, ds[j].path)
    {
      assert AtMost(ds[i], ds[j]);
      LexIsDictionaryOrder(ds[i].path, ds[j].path);
    }
    forall d: Detected
      ensures multiset(ds)[d] == if d.kind != "" && IsKind(b, d.path, d.kind) then multiset(b.paths)[d.path] else 0
    {
      CamerasCount(KindOf(b), b.paths, d);
      KindMeaning(b, d.path);
    }
  }

  // ---------------------------------------------------------------------------
  // The choice
  // ---------------------------------------------------------------------------

  const RGB_MIN_BRIGHTNESS := 40

  predicate IsVisible(d: Detected) {
    d.kind == "rgb" || d.kind == "generic"
  }

  /** The scan for the first infrared and the first visible camera. */
  method FirstPaths(detected: seq<Detected>) returns (ir: string, rgb: string)
    ensures IsFirst(detected, "ir", ir) && IsFirstVisible(detected, rgb)
  {
    ir, rgb := "", "";
    for i := 0 to |detected|
      invariant IsFirst(detected[..i], "ir", ir)
      invariant IsFirstVisible(detected[..i], rgb)
    {
      FirstStep(detected, i, "ir", ir);
      FirstVisibleStep(detected, i, rgb);
      if detected[i].kind == "ir" && ir == "" {
        ir := detected[i].path;
      } else if (detected[i].kind == "rgb" || detected[i].kind == "generic") && rgb == "" {
        rgb := detected[i].path;
      }
    }
    assert detected[..|detected|] == detected;
  }

  /** The camera definitions of full auto-detection. */
  method ChooseCameras(detected: seq<Detected>) returns (defs: seq<Camera>)
    ensures IsChoice(detected, defs)
  {
    defs := [];
    if |detected| > 0 {
      var ir, rgb := FirstPaths(detected);
      if ir != "" && rgb != "" {
        defs := defs + [Camera("ir", ir, "ir", 0, true)];
        defs := defs + [Camera("rgb", rgb, "rgb", RGB_MIN_BRIGHTNESS, false)];
      } else if rgb != "" {
        defs := defs + [Camera("rgb", rgb, "rgb", 0, true)];
      } else if ir != "" {
        defs := defs + [Camera("ir", ir, "ir", 0, true)];
      } else {
        defs := defs + [Camera("cam0", detected[0].path, "generic", 0, true)];
      }
      assert defs == ChoiceOf(detected, ir, rgb);
    }
  }

  /** `path` is that of the first camera of the kind, or "" if there is none; a camera
      without a path does not count. */
  ghost predicate IsFirst(ds: seq<Detected>, kind: string, path: string) {
    if path == "" then forall k :: 0 <= k < |ds| ==> !(ds[k].kind == kind && ds[k].path != "")
    else
      exists i :: 0 <= i < |ds| && ds[i] == Detected(path, kind)
                  && forall k :: 0 <= k < i ==> !(ds[k].kind == kind && ds[k].path != "")
  }

  ghost predicate IsFirstVisible(ds: seq<Detected>, path: string) {
    if path == "" then forall k :: 0 <= k < |ds| ==> !(IsVisible(ds[k]) && ds[k].path != "")
    else
      exists i :: 0 <= i < |ds| && ds[i].path == path && IsVisible(ds[i])
                  && forall k :: 0 <= k < i ==> !(IsVisible(ds[k]) && ds[k].path != "")
  }

  lemma FirstStep(ds: seq<Detected>, i: nat, kind: string, path: string)
    requires i < |ds| && IsFirst(ds[..i], kind, path)
    ensures IsFirst(ds[..i + 1], kind, if path == "" && ds[i].kind == kind then ds[i].path else path)
  {
    var now, next := ds[..i], ds[..i + 1];
    assert forall k :: 0 <= k < i ==> next[k] == now[k];
    assert next[i] == ds[i];
    if path != "" {
      var k :| 0 <= k < |now| && now[k] == Detected(path, kind)
          && forall m :: 0 <= m < k ==> !(now[m].kind == kind && now[m].path != "");
      assert next[k] == Detected(path, kind);
    }
  }

  lemma FirstVisibleStep(ds: seq<Detected>, i: nat, path: string)
    requires i < |ds| && IsFirstVisible(ds[..i], path)
    ensures IsFirstVisible(ds[..i + 1], if path == "" && IsVisible(ds[i]) then ds[i].path else path)
  {
    var now, next := ds[..i], ds[..i + 1];
    assert forall k :: 0 <= k < i ==> next[k] == now[k];
    assert next[i] == ds[i];
    if path != "" {
      var k :| 0 <= k < |now| && now[k].path == path && IsVisible(now[k])
          && forall m :: 0 <= m < k ==> !(IsVisible(now[m]) && now[m].path != "");
      assert next[k].path == path;
    }
  }

  /** What the configuration makes of the first infrared and the first visible camera. */
  ghost predicate IsChoice(ds: seq<Detected>, defs: seq<Camera>) {
    if ds == [] then defs == []
    else exists ir, rgb :: IsFirst(ds, "ir", ir) && IsFirstVisible(ds, rgb) && defs == ChoiceOf(ds, ir, rgb)
  }

  function ChoiceOf(ds: seq<Detected>, ir: string, rgb: string): seq<Camera>
    requires ds != []
  {
    if ir != "" && rgb != "" then
      [Camera("ir", ir, "ir", 0, true), Camera("rgb", rgb, "rgb", RGB_MIN_BRIGHTNESS, false)]
    else if rgb != "" then [Camera("rgb", rgb, "rgb", 0, true)]
    else if ir != "" then [Camera("ir", ir, "ir", 0, true)]
    else [Camera("cam0", ds[0].path, "generic", 0, true)]
  }

  /** `path` is the smallest path among the cameras that satisfy `wanted`, or "". */
  ghost predicate IsSmallest(b: Backend, path: string, wanted: string -> bool) {
    if path == "" then forall p :: p in b.paths && Kind(b, p) != "" ==> !wanted(Kind(b, p))
    else
      && path in b.paths && Kind(b, path) != "" && wanted(Kind(b, path))
      && forall p :: p in b.paths && Kind(b, p) != "" && wanted(Kind(b, p)) ==> LexLe(path, p)
  }

  predicate Infrared(kind: string) {
    kind == "ir"
  }

  predicate Visible(kind: string) {
    kind == "rgb" || kind == "generic"
  }

  lemma EnumerationMembers(b: Backend, ds: seq<Detected>, p: string)
    requires IsEnumeration(b, ds)
    ensures p in b.paths && Kind(b, p) != "" <==> exists i :: 0 <= i < |ds| && ds[i] == Detected(p, Kind(b, p))
  {
    var d := Detected(p, Kind(b, p));
    CamerasIn(KindOf(b), b.paths, d);
    assert d in ds <==> d in multiset(ds);
    assert d in Cameras(KindOf(b), b.paths) <==> d in multiset(Cameras(KindOf(b), b.paths));
  }

  lemma EnumerationKinds(b: Backend, ds: seq<Detected>, i: nat)
    requires IsEnumeration(b, ds) && i < |ds|
    ensures ds[i].path in b.paths && ds[i].kind == Kind(b, ds[i].path) && ds[i].kind in {"ir", "rgb", "generic"}
  {
    CamerasIn(KindOf(b), b.paths, ds[i]);
    assert ds[i] in multiset(ds);
    assert ds[i] in multiset(Cameras(KindOf(b), b.paths));
  }

  /** In a sorted enumeration the first of a kind is the smallest of that kind. */
  lemma FirstIsSmallest(b: Backend, ds: seq<Detected>, wanted: string -> bool, first: int, path: string)
    requires IsEnumeration(b, ds) && "" !in b.paths
    requires if path == "" then first == |ds| else 0 <= first < |ds| && ds[first].path == path && wanted(ds[first].kind)
    requires forall k :: 0 <= k < first ==> !(wanted(ds[k].kind) && ds[k].path != "")
    ensures IsSmallest(b, path, wanted)
  {
    if path != "" {
      EnumerationKinds(b, ds, first);
    }
    forall p | p in b.paths && Kind(b, p) != "" && wanted(Kind(b, p))
      ensures path != "" && LexLe(path, p)
    {
      EnumerationMembers(b, ds, p);
      var k :| 0 <= k < |ds| && ds[k] == Detected(p, Kind(b, p));
      LexTotal(p, p);
      if k > first {
        assert AtMost(ds[first], ds[k]);
      }
    }
  }

  /** The choice depends on the set of devices only: the smallest infrared path and the
      smallest visible one. The "cam0" fallback never happens, and whenever a camera is
      detected the first definition is mandatory. */
  lemma ChoiceIsSmallest(b: Backend, ds: seq<Detected>, defs: seq<Camera>)
    requires "" !in b.paths && IsEnumeration(b, ds) && IsChoice(ds, defs) && ds != []
    ensures exists ir, rgb ::
              && IsSmallest(b, ir, Infrared) && IsSmallest(b, rgb, Visible)
              && (ir != "" || rgb != "") && defs == ChoiceOf(ds, ir, rgb)
    ensures defs[0].mandatory && forall i :: 0 <= i < |defs| ==> defs[i].id != "cam0"
  {
    var ir, rgb :| IsFirst(ds, "ir", ir) && IsFirstVisible(ds, rgb) && defs == ChoiceOf(ds, ir, rgb);
    FirstInfraredIsSmallest(b, ds, ir);
    FirstVisibleIsSmallest(b, ds, rgb);
    EnumerationKinds(b, ds, 0);
    assert ds[0].kind == "ir" || IsVisible(ds[0]);
    assert ir != "" || rgb != "";
  }

  lemma FirstInfraredIsSmallest(b: Backend, ds: seq<Detected>, ir: string)
    requires IsEnumeration(b, ds) && "" !in b.paths && IsFirst(ds, "ir", ir)
    ensures IsSmallest(b, ir, Infrared)
  {
    var i: int := |ds|;
    if ir != "" {
      i :| 0 <= i < |ds| && ds[i] == Detected(ir, "ir")
           && forall k :: 0 <= k < i ==> !(ds[k].kind == "ir" && ds[k].path != "");
    }
    FirstIsSmallest(b, ds, Infrared, i, ir);
  }

  lemma FirstVisibleIsSmallest(b: Backend, ds: seq<Detected>, rgb: string)
    requires IsEnumeration(b, ds) && "" !in b.paths && IsFirstVisible(ds, rgb)
    ensures IsSmallest(b, rgb, Visible)
  {
    var j: int := |ds|;
    if rgb != "" {
      j :| 0 <= j < |ds| && ds[j].path == rgb && IsVisible(ds[j])
          && forall k :: 0 <= k < j ==> !(IsVisible(ds[k]) && ds[k].path != "");
    }
    FirstIsSmallest(b, ds, Visible, j, rgb);
  }

  // ---------------------------------------------------------------------------
  // The choice from what the devices offer
  // ---------------------------------------------------------------------------

  /** The device captures video in grey formats and in no color format. */
  predicate IsInfraredDevice(b: Backend, path: string) {
    && b.isVideoCapture(path)
    && !Offers(b, path, {Mjpeg, Yuyv, Rgb24, Bgr24}) && Offers(b, path, {Grey, Y10, Y12, Y16})
  }

  predicate IsOtherDevice(b: Backend, path: string) {
    b.isVideoCapture(path) && !IsInfraredDevice(b, path)
  }

  /** `path` is listed and infrared, or not infrared, and no such path comes before it. */
  ghost predicate IsLeast(b: Backend, path: string, infrared: bool) {
    && path in b.paths && (if infrared then IsInfraredDevice(b, path) else IsOtherDevice(b, path))
    && forall p :: p in b.paths && (if infrared then IsInfraredDevice(b, p) else IsOtherDevice(b, p)) ==>
         p == path || Precedes(path, p)
  }

  lemma SmallestIsLeast(b: Backend, path: string, infrared: bool)
    requires IsSmallest(b, path, if infrared then Infrared else Visible)
    ensures path != "" ==> IsLeast(b, path, infrared)
    ensures path == "" ==>
              forall p :: p in b.paths ==> !(if infrared then IsInfraredDevice(b, p) else IsOtherDevice(b, p))
  {
    var wanted := if infrared then Infrared else Visible;
    forall p
      ensures Kind(b, p) != "" && wanted(Kind(b, p)) <==>
              if infrared then IsInfraredDevice(b, p) else IsOtherDevice(b, p)
      ensures path != "" && LexLe(path, p) ==> p == path || Precedes(path, p)
    {
      KindMeaning(b, p);
      LexIsDictionaryOrder(path, p);
    }
  }

  /** Auto-detection defines the least infrared device as mandatory "ir" camera, and the
      least other device as "rgb" camera: beside the former with brightness check and not
      mandatory, alone without check and mandatory; and nothing else. */
  lemma ChoiceMeaning(b: Backend, ds: seq<Detected>, defs: seq<Camera>)
    requires "" !in b.paths && IsEnumeration(b, ds) && IsChoice(ds, defs)
    ensures forall ir, rgb :: IsLeast(b, ir, true) && IsLeast(b, rgb, false) ==>
              defs == [Camera("ir", ir, "ir", 0, true), Camera("rgb", rgb, "rgb", 40, false)]
    ensures forall rgb :: (forall p :: p in b.paths ==> !IsInfraredDevice(b, p)) && IsLeast(b, rgb, false) ==>
              defs == [Camera("rgb", rgb, "rgb", 0, true)]
    ensures forall ir :: (forall p :: p in b.paths ==> !IsOtherDevice(b, p)) && IsLeast(b, ir, true) ==>
              defs == [Camera("ir", ir, "ir", 0, true)]
    ensures (forall p :: p in b.paths ==> !b.isVideoCapture(p)) <==> defs == []
  {
    if ds == [] {
      forall p | p in b.paths
        ensures !b.isVideoCapture(p)
      {
        EnumerationMembers(b, ds, p);
        KindMeaning(b, p);
      }
    } else {
      EnumerationKinds(b, ds, 0);
      KindMeaning(b, ds[0].path);
      var ir, rgb :| IsFirst(ds, "ir", ir) && IsFirstVisible(ds, rgb) && defs == ChoiceOf(ds, ir, rgb);
      FirstInfraredIsSmallest(b, ds, ir);
      FirstVisibleIsSmallest(b, ds, rgb);
      SmallestIsLeast(b, ir, true);
      SmallestIsLeast(b, rgb, false);
      LeastUnique(b);
    }
  }

  lemma LeastUnique(b: Backend)
    ensures forall p, q, infrared :: IsLeast(b, p, infrared) && IsLeast(b, q, infrared) ==> p == q
  {
    forall p, q, infrared | IsLeast(b, p, infrared) && IsLeast(b, q, infrared)
      ensures p == q
    {
      LexIsDictionaryOrder(p, q);
      LexIsDictionaryOrder(q, p);
      if p != q {
        LexAntisymmetric(p, q);
      }
    }
  }

  /** There is a least device of a sort whenever there is one of that sort at all. */
  lemma LeastExists(b: Backend, ds: seq<Detected>, infrared: bool, p: string)
    requires "" !in b.paths && IsEnumeration(b, ds)
    requires p in b.paths && if infrared then IsInfraredDevice(b, p) else IsOtherDevice(b, p)
    ensures exists path :: IsLeast(b, path, infrared)
  {
    EnumerationMembers(b, ds, p);
    KindMeaning(b, p);
    var ir, rgb := FirstPaths'(ds);
    FirstInfraredIsSmallest(b, ds, ir);
    FirstVisibleIsSmallest(b, ds, rgb);
    SmallestIsLeast(b, if infrared then ir else rgb, infrared);
  }

  lemma {:induction false} FirstPaths'(ds: seq<Detected>) returns (ir: string, rgb: string)
    ensures IsFirst(ds, "ir", ir) && IsFirstVisible(ds, rgb)
  {
    if ds == [] {
      ir, rgb := "", "";
    } else {
      var n := |ds| - 1;
      ir, rgb := FirstPaths'(ds[..n]);
      FirstStep(ds, n, "ir", ir);
      FirstVisibleStep(ds, n, rgb);
      assert ds[..n + 1] == ds;
      ir := if ir == "" && ds[n].kind == "ir" then ds[n].path else ir;
      rgb := if rgb == "" && IsVisible(ds[n]) then ds[n].path else rgb;
    }
  }
}
