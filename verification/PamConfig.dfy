/** The configuration reader inside the PAM module. */
module PamConfig {
  import opened Text
  import opened Domain
  import opened ConfigLines

  /** `trim`, with its `size_t` arithmetic: on blank text both searches answer `npos`,
      and the unsigned subtraction comes round to 0. */
  method Trim(s: string) returns (t: string)
    requires |s| < NPOS
    ensures t == Strip(s, PAM_BLANKS)
  {
    t := s[Min(FindFirstNotOf(s, PAM_BLANKS), |s|)..];
    assert t == s[Lead(s, PAM_BLANKS)..];
    var last := FindLastNotOf(t, PAM_BLANKS);
    SizeSubIs(|t|, if last == NPOS then 0 else last);
    SizeSubIs(if last == NPOS then |t| + 1 else |t| - last, 1);
    t := t[..|t| - Min(SizeSub(SizeSub(|t|, last), 1), |t|)];
  }

  /** The declarative reading of `trim`: the longest stretch of the text that neither
      starts nor ends with a blank, and nothing at all of a blank text. */
  lemma TrimMeaning(s: string) returns (i: nat, j: nat)
    ensures i <= j <= |s| && Strip(s, PAM_BLANKS) == s[i..j]
    ensures AllIn(s, 0, i, PAM_BLANKS) && AllIn(s, j, |s|, PAM_BLANKS)
    ensures i < j ==> s[i] !in PAM_BLANKS && s[j - 1] !in PAM_BLANKS
    ensures AllIn(s, 0, |s|, PAM_BLANKS) <==> Strip(s, PAM_BLANKS) == ""
  {
    i, j := StripIsMaximal(s, PAM_BLANKS);
  }

  function Classify(line: string): Line {
    ClassifyText(Strip(line, PAM_BLANKS))
  }

  /** A trimmed line. */
  function ClassifyText(sv: string): Line {
    if sv == "" || sv[0] == ';' || sv[0] == '#' then Skip
    else if sv[0] == '[' && sv[|sv| - 1] == ']' then Section(sv[1..|sv| - 1])
    else
      var eq := Find(sv, '=');
      if eq < |sv| then SettingOf(sv[..eq], sv[eq + 1..]) else Skip
  }

  /** The text before and behind the equals sign. */
  function SettingOf(key: string, val: string): Line {
    Setting(Strip(key, PAM_BLANKS), Strip(val, PAM_BLANKS))
  }

  /** The user id a value denotes, if the reader accepts it. */
  function ValidUid(value: string): Option<nat> {
    if value != "" && value[0] == '-' then None
    else
      var v := Strtoul(value);
      if v.Some? then Some(v.value % UID_MODULUS) else None
  }

  /** What the reader keeps of a setting: whether it stands under [Security], and its
      id if valid. */
  datatype Claim = Claim(secure: bool, uid: Option<nat>)

  function ClaimOf(a: Assignment): Claim {
    Claim(a.section == "Security", ValidUid(a.value))
  }

  function Claims(xs: seq<Assignment>): seq<Claim> {
    seq(|xs|, i requires 0 <= i < |xs| => ClaimOf(xs[i]))
  }

  predicate Secures(x: Claim) {
    x.secure && x.uid.Some?
  }

  /** The id of the last valid setting under [Security]. */
  function SecurityUid(xs: seq<Claim>): Option<nat> {
    if xs == [] then None
    else if Secures(xs[|xs| - 1]) then xs[|xs| - 1].uid
    else SecurityUid(xs[..|xs| - 1])
  }

  /** The id of the first valid setting, provided no [Security] one came before it. */
  function FirstUid(xs: seq<Claim>): Option<nat> {
    if xs == [] then None
    else
      var before := xs[..|xs| - 1];
      var x := xs[|xs| - 1];
      if FirstUid(before).Some? || SecurityUid(before).Some? || x.secure then FirstUid(before) else x.uid
  }

  /** The `min_uid` settings of a file as this reader sees them. */
  function ClaimsIn(lines: seq<string>): seq<Claim> {
    Claims(Assignments(Classify, lines))
  }

  /** How `process_pam_config_line` takes a line apart. */
  method ReadLine(line: string) returns (l: Line)
    requires |line| < NPOS
    ensures l == Classify(line)
  {
    var sv := Trim(line);
    if sv == "" || sv[0] == ';' || sv[0] == '#' {
      return Skip;
    }
    if sv[0] == '[' && sv[|sv| - 1] == ']' {
      return Section(sv[1..|sv| - 1]);
    }
    var eq := Find(sv, '=');
    if eq < |sv| {
      var key := Trim(sv[..eq]);
      var val := Trim(sv[eq + 1..]);
      return Setting(key, val);
    }
    return Skip;
  }

  /** `PamConfigState` */
  class PamConfigState {
    var currentSection: string
    var foundSecurityUid: nat
    var hasSecurityUid: bool
    var foundFirstUid: nat
    var hasFirstUid: bool

    /** The state is the summary of the lines read so far. */
    ghost predicate Summarises(lines: seq<string>)
      reads this
    {
      && currentSection == SectionAfter(Classify, lines)
      && Security() == SecurityUid(ClaimsIn(lines))
      && First() == FirstUid(ClaimsIn(lines))
    }

    function Security(): Option<nat>
      reads this
    {
      if hasSecurityUid then Some(foundSecurityUid) else None
    }

    function First(): Option<nat>
      reads this
    {
      if hasFirstUid then Some(foundFirstUid) else None
    }

    constructor ()
      ensures Summarises([])
    {
      currentSection, foundSecurityUid, hasSecurityUid, foundFirstUid, hasFirstUid := "", 0, false, 0, false;
    }

    /** `process_pam_config_line` */
    method ProcessLine(line: string, ghost lines: seq<string>)
      requires |line| < NPOS && Summarises(lines)
      modifies this
      ensures Summarises(lines + [line])
    {
      SummaryStep(lines, line);
      var l := ReadLine(line);
      if l.Section? {
        currentSection := l.name;
      } else if l.Setting? && l.key == "min_uid" {
        AcceptMinUid(l.value);
      }
    }

    /** The treatment of a `min_uid` value. */
    method AcceptMinUid(val: string)
      modifies this`foundSecurityUid, this`hasSecurityUid, this`foundFirstUid, this`hasFirstUid
      ensures var x := ClaimOf(Assignment(currentSection, val));
              && Security() == (if Secures(x) then x.uid else old(Security()))
              && First() == (if old(First()).Some? || old(Security()).Some? || x.secure then old(First()) else x.uid)
    {
      if val != "" && val[0] == '-' {
        return;
      }
      var parsed := Strtoul(val);
      if parsed.Some? {
        var uid := parsed.value % UID_MODULUS;
        if currentSection == "Security" {
          foundSecurityUid := uid;
          hasSecurityUid := true;
        } else if !hasFirstUid && !hasSecurityUid {
          foundFirstUid := uid;
          hasFirstUid := true;
        }
      }
    }

    /** `resolve_pam_config` */
    method Resolve(ghost lines: seq<string>) returns (minUid: nat)
      requires Summarises(lines)
      ensures minUid == MinUid(lines)
    {
      if hasSecurityUid {
        return foundSecurityUid;
      } else if hasFirstUid {
        return foundFirstUid;
      }
      return DEFAULT_MIN_UID;
    }
  }

  /** What one more line adds to the settings. */
  lemma OneMoreLine(lines: seq<string>, line: string)
    ensures var l := Classify(line);
            && SectionAfter(Classify, lines + [line]) == (if l.Section? then l.name else SectionAfter(Classify, lines))
            && ClaimsIn(lines + [line]) ==
               if SetsMinUid(l) then ClaimsIn(lines) + [ClaimOf(Assignment(SectionAfter(Classify, lines), l.value))]
               else ClaimsIn(lines)
  {
    assert (lines + [line])[..|lines|] == lines;
  }

  /** What one more setting adds to their summary. */
  lemma OneMoreClaim(xs: seq<Claim>, x: Claim)
    ensures SecurityUid(xs + [x]) == if Secures(x) then x.uid else SecurityUid(xs)
    ensures FirstUid(xs + [x]) ==
            if FirstUid(xs).Some? || SecurityUid(xs).Some? || x.secure then FirstUid(xs) else x.uid
  {
    assert (xs + [x])[..|xs|] == xs;
  }

  lemma SummaryStep(lines: seq<string>, line: string)
    ensures var l := Classify(line);
            var xs, ys := ClaimsIn(lines), ClaimsIn(lines + [line]);
            && SectionAfter(Classify, lines + [line]) == (if l.Section? then l.name else SectionAfter(Classify, lines))
            && if SetsMinUid(l) then
                 var x := ClaimOf(Assignment(SectionAfter(Classify, lines), l.value));
                 && SecurityUid(ys) == (if Secures(x) then x.uid else SecurityUid(xs))
                 && FirstUid(ys) == (if FirstUid(xs).Some? || SecurityUid(xs).Some? || x.secure
                     then FirstUid(xs) else x.uid)
               else ys == xs
  {
    OneMoreLine(lines, line);
    if SetsMinUid(Classify(line)) {
      OneMoreClaim(ClaimsIn(lines), ClaimOf(Assignment(SectionAfter(Classify, lines), Classify(line).value)));
    }
  }

  function UidOf(xs: seq<Claim>): nat {
    SecurityUid(xs).GetOr(FirstUid(xs).GetOr(DEFAULT_MIN_UID))
  }

  function MinUid(lines: seq<string>): nat {
    UidOf(ClaimsIn(lines))
  }

  /** `load_pam_config`: every buffer `fgets` filled is read as a C string. */
  method LoadPamConfig(buffers: seq<string>) returns (minUid: nat)
    requires forall i :: 0 <= i < |buffers| ==> |buffers[i]| < NPOS
    ensures minUid == MinUid(CStrings(buffers))
  {
    var state := new PamConfigState();
    ghost var lines := CStrings(buffers);
    assert lines[..0] == [];
    for i := 0 to |buffers|
      invariant fresh(state) && state.Summarises(lines[..i])
    {
      assert lines[..i + 1] == lines[..i] + [lines[i]];
      state.ProcessLine(CString(buffers[i]), lines[..i]);
    }
    assert lines[..|buffers|] == lines;
    minUid := state.Resolve(lines);
  }

  function CStrings(buffers: seq<string>): (lines: seq<string>)
    ensures |lines| == |buffers| && forall i :: 0 <= i < |lines| ==> lines[i] == CString(buffers[i])
  {
    seq(|buffers|, i requires 0 <= i < |buffers| => CString(buffers[i]))
  }

  // ---------------------------------------------------------------------------
  // Meaning
  // ---------------------------------------------------------------------------

  /** The first valid setting anywhere, else the default. */
  ghost predicate FirstMeans(xs: seq<Claim>, uid: nat) {
    || (exists i :: 0 <= i < |xs| && xs[i].uid == Some(uid) && forall k :: 0 <= k < i ==> xs[k].uid.None?)
    || ((forall k :: 0 <= k < |xs| ==> xs[k].uid.None?) && uid == DEFAULT_MIN_UID)
  }

  /** The last valid setting under [Security], else the first valid one anywhere, else
      the default. */
  ghost predicate Means(xs: seq<Claim>, uid: nat) {
    || (exists i :: 0 <= i < |xs| && Secures(xs[i]) && xs[i].uid == Some(uid)
                    && forall k :: i < k < |xs| ==> !Secures(xs[k]))
    || ((forall k :: 0 <= k < |xs| ==> !Secures(xs[k])) && FirstMeans(xs, uid))
  }

  lemma {:induction false} SecurityUidIsLast(xs: seq<Claim>)
    ensures SecurityUid(xs).None? <==> forall k :: 0 <= k < |xs| ==> !Secures(xs[k])
    ensures SecurityUid(xs).Some? ==>
              exists i :: 0 <= i < |xs| && Secures(xs[i]) && xs[i].uid == SecurityUid(xs)
                          && forall k :: i < k < |xs| ==> !Secures(xs[k])
  {
    if xs != [] && !Secures(xs[|xs| - 1]) {
      var n := |xs| - 1;
      SecurityUidIsLast(xs[..n]);
      assert forall k :: 0 <= k < n ==> xs[..n][k] == xs[k];
      if SecurityUid(xs[..n]).Some? {
        var i :| 0 <= i < n && Secures(xs[..n][i]) && xs[..n][i].uid == SecurityUid(xs[..n])
                 && forall k :: i < k < n ==> !Secures(xs[..n][k]);
        assert forall k :: i < k < n ==> xs[..n][k] == xs[k];
      }
    }
  }

  lemma {:induction false} FirstUidIsFirst(xs: seq<Claim>)
    requires SecurityUid(xs).None?
    ensures FirstUid(xs).None? <==> forall k :: 0 <= k < |xs| ==> xs[k].uid.None?
    ensures FirstUid(xs).Some? ==>
              exists i :: 0 <= i < |xs| && xs[i].uid == FirstUid(xs) && forall k :: 0 <= k < i ==> xs[k].uid.None?
  {
    if xs != [] {
      var n := |xs| - 1;
      FirstUidIsFirst(xs[..n]);
      if FirstUid(xs[..n]).Some? {
        var i :| 0 <= i < n && xs[..n][i].uid == FirstUid(xs[..n]) && forall k :: 0 <= k < i ==> xs[..n][k].uid.None?;
        assert forall k :: 0 <= k < i ==> xs[..n][k] == xs[k];
      }
    }
  }

  /** For every list of lines the fold computes its specification, which determines the
      result. */
  lemma MinUidMeaning(lines: seq<string>, uid: nat)
    ensures Means(ClaimsIn(lines), uid) <==> uid == MinUid(lines)
  {
    ClaimsMean(ClaimsIn(lines), uid);
  }

  lemma ClaimsMean(xs: seq<Claim>, uid: nat)
    ensures Means(xs, uid) <==> uid == UidOf(xs)
  {
    SecurityUidIsLast(xs);
    if SecurityUid(xs).None? {
      FirstUidIsFirst(xs);
    }
  }
}
