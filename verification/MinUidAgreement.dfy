/** The daemon and the PAM module read `min_uid` from the same file with different
    code. When they agree, and when they do not. */
module MinUidAgreement {
  import opened Text
  import opened Domain
  import opened ConfigLines
  import Pam = PamConfig
  import Ini = IniConfig

  // ---------------------------------------------------------------------------
  // The same settings
  // ---------------------------------------------------------------------------

  /** Two readings of a line that differ only in lines neither side uses. */
  predicate Alike(a: Line, b: Line) {
    a == b || (!a.Section? && !b.Section? && !SetsMinUid(a) && !SetsMinUid(b))
  }

  /** Only line breaks tell the two sets of blanks apart. */
  lemma BlanksAgree(s: string)
    requires NoneOf(s, BREAKS)
    ensures forall i :: 0 <= i < |s| ==> (s[i] in PAM_BLANKS <==> s[i] in INI_BLANKS)
  {
  }

  lemma SameValue(val: string)
    requires NoneOf(val, BREAKS)
    requires val != "" ==> val[|val| - 1] !in PAM_BLANKS
    ensures Strip(val, PAM_BLANKS) == val[Lead(val, INI_BLANKS)..]
  {
    BlanksAgree(val);
    StripAgree(val, PAM_BLANKS, INI_BLANKS);
    var t := val[Lead(val, INI_BLANKS)..];
    UntilIs(t, PAM_BLANKS, |t|);
    assert t[..|t|] == t;
  }

  lemma SameKey(key: string)
    requires NoneOf(key, BREAKS)
    requires key != "" ==> key[0] !in PAM_BLANKS
    ensures Strip(key, PAM_BLANKS) == key[..Until(key, INI_BLANKS)]
  {
    BlanksAgree(key);
    StripAgree(key, PAM_BLANKS, INI_BLANKS);
    LeadIs(key, PAM_BLANKS, 0);
    assert key[0..] == key;
  }

  lemma SameSetting(key: string, val: string)
    requires NoneOf(key, BREAKS) && (key != "" ==> key[0] !in PAM_BLANKS)
    requires NoneOf(val, BREAKS) && (val != "" ==> val[|val| - 1] !in PAM_BLANKS)
    ensures Pam.SettingOf(key, val) == Ini.SettingOf(key, val)
  {
    SameKey(key);
    SameValue(val);
  }

  /** The daemon has no `#` comments, but what it makes of one is harmless. */
  lemma HashIsHarmless(sv: string)
    requires sv != "" && sv[0] == '#'
    ensures !Ini.ClassifyText(sv).Section? && !SetsMinUid(Ini.ClassifyText(sv))
  {
    var l := Ini.ClassifyText(sv);
    if l.Setting? {
      assert l.key == "" || l.key[0] == '#';
      assert "min_uid"[0] == 'm';
    }
  }

  /** Both readers cut a trimmed setting into the same two pieces. */
  lemma Pieces(sv: string) returns (key: string, val: string)
    requires NoneOf(sv, BREAKS)
    requires sv != "" && sv[0] !in PAM_BLANKS && sv[|sv| - 1] !in PAM_BLANKS
    requires sv[0] !in {';', '#'} && !(sv[0] == '[' && sv[|sv| - 1] == ']') && Find(sv, '=') < |sv|
    ensures NoneOf(key, BREAKS) && (key != "" ==> key[0] !in PAM_BLANKS)
    ensures NoneOf(val, BREAKS) && (val != "" ==> val[|val| - 1] !in PAM_BLANKS)
    ensures Pam.ClassifyText(sv) == Pam.SettingOf(key, val)
    ensures Ini.ClassifyText(sv) == Ini.SettingOf(key, val)
  {
    var eq := Find(sv, '=');
    key, val := sv[..eq], sv[eq + 1..];
  }

  /** What either reader makes of a trimmed line that is neither comment nor section. */
  lemma SettingText(sv: string)
    requires NoneOf(sv, BREAKS)
    requires sv != "" && sv[0] !in PAM_BLANKS && sv[|sv| - 1] !in PAM_BLANKS
    requires sv[0] !in {';', '#'} && !(sv[0] == '[' && sv[|sv| - 1] == ']')
    ensures Pam.ClassifyText(sv) == Ini.ClassifyText(sv)
  {
    if Find(sv, '=') < |sv| {
      var key, val := Pieces(sv);
      SameSetting(key, val);
    }
  }

  lemma SameText(sv: string)
    requires NoneOf(sv, BREAKS)
    requires sv != "" ==> sv[0] !in PAM_BLANKS && sv[|sv| - 1] !in PAM_BLANKS
    ensures Alike(Pam.ClassifyText(sv), Ini.ClassifyText(sv))
  {
    if sv == "" || sv[0] == ';' {
      assert Pam.ClassifyText(sv) == Skip == Ini.ClassifyText(sv);
    } else if sv[0] == '#' {
      HashIsHarmless(sv);
      assert Pam.ClassifyText(sv) == Skip;
    } else if sv[0] == '[' && sv[|sv| - 1] == ']' {
      assert Pam.ClassifyText(sv) == Ini.ClassifyText(sv);
    } else {
      SettingText(sv);
    }
  }

  /** Comments apart, the two readers take a line without CR and LF apart alike. */
  lemma SameLine(line: string)
    requires NoneOf(line, BREAKS)
    ensures Alike(Pam.Classify(line), Ini.Classify(line))
  {
    var sv := Strip(line, PAM_BLANKS);
    assert sv == Strip(line, INI_BLANKS) by {
      BlanksAgree(line);
      StripAgree(line, PAM_BLANKS, INI_BLANKS);
    }
    StripKeepsOut(line, PAM_BLANKS, BREAKS);
    StripEnds(line, PAM_BLANKS);
    SameText(sv);
  }

  /** The newline `fgets` leaves behind the line changes nothing. */
  lemma SameBuffer(line: string, buffer: string)
    requires NoneOf(line, BREAKS) && '\0' !in line
    requires buffer == line || buffer == line + "\n"
    ensures Alike(Pam.Classify(CString(buffer)), Ini.Classify(line))
  {
    CStringWithoutNul(buffer);
    StripTrailing(line, '\n', PAM_BLANKS);
    SameLine(line);
  }

  lemma {:induction false} SameAssignments(f: string -> Line, xs: seq<string>, g: string -> Line, ys: seq<string>)
    requires |xs| == |ys| && forall i :: 0 <= i < |xs| ==> Alike(f(xs[i]), g(ys[i]))
    ensures SectionAfter(f, xs) == SectionAfter(g, ys)
    ensures Assignments(f, xs) == Assignments(g, ys)
  {
    if xs != [] {
      var n := |xs| - 1;
      SameAssignments(f, xs[..n], g, ys[..n]);
      assert Alike(f(xs[n]), g(ys[n]));
    }
  }

  /** The buffers are the lines of the file as `fgets` returns them: no CR and no NUL,
      each line with its newline, or without at the end of the file. */
  ghost predicate BuffersOf(buffers: seq<string>, lines: seq<string>) {
    && |buffers| == |lines|
    && forall i :: 0 <= i < |lines| ==>
         && NoneOf(lines[i], BREAKS) && '\0' !in lines[i]
         && (buffers[i] == lines[i] || buffers[i] == lines[i] + "\n")
  }

  /** Both readers see the same `min_uid` settings in the same sections. */
  lemma SameSettings(lines: seq<string>, buffers: seq<string>)
    requires BuffersOf(buffers, lines)
    ensures Assignments(Pam.Classify, Pam.CStrings(buffers)) == Assignments(Ini.Classify, lines)
  {
    forall i | 0 <= i < |lines|
      ensures Alike(Pam.Classify(Pam.CStrings(buffers)[i]), Ini.Classify(lines[i]))
    {
      SameBuffer(lines[i], buffers[i]);
    }
    SameAssignments(Pam.Classify, Pam.CStrings(buffers), Ini.Classify, lines);
  }

  // ---------------------------------------------------------------------------
  // The same id
  // ---------------------------------------------------------------------------

  /** A plain value is one number to both readers. */
  lemma PlainValue(value: string)
    requires Plain(value)
    ensures Pam.ValidUid(value) == Some(Number(DigitRun(value)))
    ensures Ini.UidOfValue(value) == Number(DigitRun(value))
  {
    LeadIs(value, SPACES, 0);
    assert value[0..] == value;
  }

  /** The PAM module takes the last [Security] value if it is valid. */
  lemma {:induction false} LastSecurityCounts(xs: seq<Assignment>)
    requires LastIn("Security", xs).Some? && Pam.ValidUid(LastIn("Security", xs).value).Some?
    ensures Pam.SecurityUid(Pam.Claims(xs)) == Pam.ValidUid(LastIn("Security", xs).value)
  {
    var n := |xs| - 1;
    assert Pam.Claims(xs)[..n] == Pam.Claims(xs[..n]);
    if xs[n].section != "Security" {
      LastSecurityCounts(xs[..n]);
    }
  }

  /** A minus sign before digits that make 0. */
  predicate NegativeZero(value: string) {
    && value != "" && value[0] == '-'
    && DigitRun(value[1..]) != "" && Number(DigitRun(value[1..])) == 0
  }

  /** What the PAM module rejects, the daemon reads as the default, save a negative zero. */
  lemma RejectedMeansDefault(value: string)
    requires Pam.ValidUid(value).None?
    ensures Ini.UidOfValue(value) == if NegativeZero(value) then 0 else DEFAULT_MIN_UID
  {
    if value != "" && value[0] in DIGITS {
      LeadIs(value, SPACES, 0);
      assert value[0..] == value;
    }
  }

  /** What the daemon makes of a file without a usable value under [Security]. */
  function GeneralUid(xs: seq<Assignment>): nat {
    var v := LastIn("General", xs).GetOr("");
    if v == "" then DEFAULT_MIN_UID else Ini.UidOfValue(v)
  }

  /** Exactly when the readers agree, whatever the two make of the file: the daemon's id, by
      its last [Security] value if not empty and else its last [General] value, is what the
      last valid [Security] value means to the PAM module, or else its first valid value. */
  lemma ReadersAgreeExactly(lines: seq<string>, buffers: seq<string>)
    ensures var xs := Assignments(Ini.Classify, lines);
            Pam.MinUid(Pam.CStrings(buffers)) == Ini.MinUid(lines) <==>
            Pam.Means(Pam.ClaimsIn(Pam.CStrings(buffers)),
                      Ini.UidOfValues(LastIn("Security", xs), LastIn("General", xs)))
  {
    Ini.MinUidMeaning(lines);
    Pam.MinUidMeaning(Pam.CStrings(buffers), Ini.MinUid(lines));
  }

  /** In terms of the settings, for files without CR and NUL, which both readers take apart
      alike. If the last [Security] value is valid
      for the PAM module, both use it. If that module rejects it, it takes the last valid
      [Security] value or else the first valid one anywhere, while the daemon goes by the
      rejected value still. If it is empty or absent, the daemon turns to [General]. */
  lemma CleanFilesAgreeExactly(lines: seq<string>, buffers: seq<string>)
    requires BuffersOf(buffers, lines)
    ensures var xs := Assignments(Ini.Classify, lines);
            var value := LastIn("Security", xs).GetOr("");
            Pam.MinUid(Pam.CStrings(buffers)) == Ini.MinUid(lines) <==>
            if Pam.ValidUid(value).Some? then Pam.ValidUid(value).value == Ini.UidOfValue(value)
            else
              Pam.Means(Pam.Claims(xs),
                        if value == "" then GeneralUid(xs) else if NegativeZero(value) then 0 else DEFAULT_MIN_UID)
  {
    var xs := Assignments(Ini.Classify, lines);
    var value := LastIn("Security", xs).GetOr("");
    SameSettings(lines, buffers);
    Ini.MinUidMeaning(lines);
    EmptyIsRejected();
    if Pam.ValidUid(value).Some? {
      LastSecurityCounts(xs);
    } else {
      RejectedMeansDefault(value);
      Pam.ClaimsMean(Pam.Claims(xs), Ini.MinUid(lines));
    }
  }

  lemma EmptyIsRejected()
    ensures Pam.ValidUid("").None?
  {
    assert ""[Lead("", SPACES)..] == "";
  }

  /** So they agree on every file whose last [Security] value is plain, and on every file
      that does not set `min_uid` at all, whatever else it holds. */
  lemma ReadersAgree(lines: seq<string>, buffers: seq<string>)
    requires BuffersOf(buffers, lines)
    requires var xs := Assignments(Ini.Classify, lines);
             xs == [] || (LastIn("Security", xs).Some? && Plain(LastIn("Security", xs).value))
    ensures Pam.MinUid(Pam.CStrings(buffers)) == Ini.MinUid(lines)
  {
    var xs := Assignments(Ini.Classify, lines);
    if xs == [] {
      SameSettings(lines, buffers);
      Ini.MinUidMeaning(lines);
    } else {
      CleanFilesAgreeExactly(lines, buffers);
      PlainValue(LastIn("Security", xs).value);
    }
  }

  /** Without a [Security] value: when the first valid value anywhere is the id of the last
      value under [General], with the default on either side for none. */
  lemma AgreeWithoutSecurity(lines: seq<string>, buffers: seq<string>)
    requires BuffersOf(buffers, lines) && LastIn("Security", Assignments(Ini.Classify, lines)).None?
    ensures var xs := Assignments(Ini.Classify, lines);
            Pam.MinUid(Pam.CStrings(buffers)) == Ini.MinUid(lines) <==>
            Pam.FirstMeans(Pam.Claims(xs), GeneralUid(xs))
  {
    EmptyIsRejected();
    CleanFilesAgreeExactly(lines, buffers);
    NoClaimSecures(Assignments(Ini.Classify, lines));
  }

  lemma NoClaimSecures(xs: seq<Assignment>)
    requires LastIn("Security", xs).None?
    ensures forall k :: 0 <= k < |xs| ==> !Pam.Secures(Pam.Claims(xs)[k])
  {
    LastInIsLast("Security", xs);
  }

  // ---------------------------------------------------------------------------
  // Decimal numerals
  // ---------------------------------------------------------------------------

  /** A decimal numeral is read back as its number. */
  lemma {:induction false} NumberOfDecimal(n: nat)
    ensures Number(Decimal(n)) == n
    ensures AllIn(Decimal(n), 0, |Decimal(n)|, DIGITS)
  {
    if n < 10 {
      DigitOf(n);
      assert Decimal(n)[..0] == "";
    } else {
      NumberOfDecimal(n / 10);
      DigitOf(n % 10);
      assert Decimal(n)[..|Decimal(n)| - 1] == Decimal(n / 10);
      assert 10 * (n / 10) + n % 10 == n;
    }
  }

  lemma DigitOf(d: nat)
    requires d < 10
    ensures var ch := ('0' as int + d) as char; ch in DIGITS && ch as nat - '0' as nat == d
  {
    assert d in {0, 1, 2, 3, 4, 5, 6, 7, 8, 9};
  }

  lemma DigitRunOfDecimal(n: nat)
    ensures DigitRun(Decimal(n)) == Decimal(n) && Number(DigitRun(Decimal(n))) == n
    ensures Decimal(n)[0] in DIGITS
    ensures Lead(Decimal(n), SPACES) == 0
  {
    NumberOfDecimal(n);
    LeadIs(Decimal(n), DIGITS, |Decimal(n)|);
    LeadIs(Decimal(n), SPACES, 0);
  }

  /** The PAM module cuts a numeral to 32 bits, after saturating it at 64. */
  lemma PamReadsDecimal(n: nat)
    ensures Pam.ValidUid(Decimal(n)) == Some(if n <= ULONG_MAX then n % UID_MODULUS else UID_MODULUS - 1)
  {
    DigitRunOfDecimal(n);
    assert Decimal(n)[0..] == Decimal(n);
    assert ULONG_MAX % UID_MODULUS == UID_MODULUS - 1;
  }

  /** The daemon takes what fits an `int`, and the default otherwise. */
  lemma DaemonReadsDecimal(n: nat)
    ensures Ini.UidOfValue(Decimal(n)) == if n < INT_LIMIT then n else DEFAULT_MIN_UID
  {
    DigitRunOfDecimal(n);
    FromCharsOfDigits(Decimal(n));
  }

  lemma FromCharsOfDigits(s: string)
    requires s != "" && s[0] in DIGITS
    ensures Ini.UidOfValue(s) == if Number(DigitRun(s)) < INT_LIMIT then Number(DigitRun(s)) else DEFAULT_MIN_UID
  {
  }

  /** For which numerals the two readings agree: those below 2^31, and the few beyond
      that the PAM module happens to cut down to the daemon's default. */
  lemma DecimalsAgreeExactly(n: nat)
    ensures Pam.ValidUid(Decimal(n)) == Some(Ini.UidOfValue(Decimal(n))) <==>
            n < INT_LIMIT || (n <= ULONG_MAX && n % UID_MODULUS == DEFAULT_MIN_UID)
  {
    PamReadsDecimal(n);
    DaemonReadsDecimal(n);
    var pam := if n <= ULONG_MAX then n % UID_MODULUS else UID_MODULUS - 1;
    CutsAgree(n, pam, if n < INT_LIMIT then n else DEFAULT_MIN_UID);
  }

  /** So much for whole files whose last [Security] value is a decimal numeral. */
  lemma DecimalFilesAgreeExactly(lines: seq<string>, buffers: seq<string>, n: nat)
    requires BuffersOf(buffers, lines)
    requires LastIn("Security", Assignments(Ini.Classify, lines)) == Some(Decimal(n))
    ensures Pam.MinUid(Pam.CStrings(buffers)) == Ini.MinUid(lines) <==>
            n < INT_LIMIT || (n <= ULONG_MAX && n % UID_MODULUS == DEFAULT_MIN_UID)
  {
    PamReadsDecimal(n);
    DecimalsAgreeExactly(n);
    CleanFilesAgreeExactly(lines, buffers);
  }

  lemma CutsAgree(n: nat, pam: nat, daemon: nat)
    requires pam == if n <= ULONG_MAX then n % UID_MODULUS else UID_MODULUS - 1
    requires daemon == if n < INT_LIMIT then n else DEFAULT_MIN_UID
    ensures pam == daemon <==> n < INT_LIMIT || (n <= ULONG_MAX && n % UID_MODULUS == DEFAULT_MIN_UID)
  {
    if n < INT_LIMIT {
      assert n % UID_MODULUS == n;
    }
  }

  // ---------------------------------------------------------------------------
  // Where they part
  // ---------------------------------------------------------------------------

  /** `strtoul` takes a plus sign, `from_chars` does not. */
  lemma PlusSignParts(digits: string)
    requires Plain(digits)
    ensures Pam.ValidUid("+" + digits) == Some(Number(DigitRun(digits)))
    ensures Ini.UidOfValue("+" + digits) == DEFAULT_MIN_UID
  {
    var v := "+" + digits;
    LeadIs(v, SPACES, 0);
    LeadIs(v, DIGITS, 0);
    assert v[0..] == v && v[1..] == digits;
  }

  /** So with a plus sign they agree on the default only. */
  lemma PlusFilesAgreeExactly(lines: seq<string>, buffers: seq<string>, digits: string)
    requires BuffersOf(buffers, lines) && Plain(digits)
    requires LastIn("Security", Assignments(Ini.Classify, lines)) == Some("+" + digits)
    ensures Pam.MinUid(Pam.CStrings(buffers)) == Ini.MinUid(lines) <==> Number(DigitRun(digits)) == DEFAULT_MIN_UID
  {
    PlusSignParts(digits);
    CleanFilesAgreeExactly(lines, buffers);
  }

  /** The PAM module reads a line up to a NUL, the daemon reads past it: the daemon sees
      a section heading where the PAM module sees none. */
  lemma NulParts(name: string)
    requires NoneOf(name, {'\0', ']'})
    ensures Ini.Classify("[" + name + "\0]") == Section(name + "\0")
    ensures !Pam.Classify(CString("[" + name + "\0]")).Section?
    ensures '=' !in name ==> Pam.Classify(CString("[" + name + "\0]")) == Skip
  {
    var s, t := "[" + name + "\0]", "[" + name;
    assert s[0] == '[' && s[|s| - 1] == ']' && s[1..|s| - 1] == name + "\0";
    StripFixed(s, INI_BLANKS);
    CutAtNul(t, "]");
    assert t + "\0" + "]" == s;
    StripKeepsOut(t, PAM_BLANKS, {']'});
    if '=' !in name {
      StripKeepsOut(t, PAM_BLANKS, {'='});
    }
  }

  lemma CutAtNul(t: string, rest: string)
    requires '\0' !in t
    ensures CString(t + "\0" + rest) == t
  {
    var s := t + "\0" + rest;
    assert s[|t|] == '\0' && forall i :: 0 <= i < |t| ==> s[i] == t[i];
    FindIs(s, '\0', |t|);
  }

  /** `lines` with a CR behind each, as in a file with CR LF line ends. */
  function Crlf(lines: seq<string>): (out: seq<string>)
    ensures |out| == |lines| && forall i :: 0 <= i < |out| ==> out[i] == lines[i] + "\r"
  {
    seq(|lines|, i requires 0 <= i < |lines| => lines[i] + "\r")
  }

  lemma CrIsNoSection(line: string)
    ensures !Ini.Classify(line + "\r").Section?
  {
    var s := line + "\r";
    assert s[|line|] == '\r';
    var t := s[Lead(s, INI_BLANKS)..];
    assert t[|t| - 1] == '\r';
    UntilIs(t, INI_BLANKS, |t|);
    assert t[..|t|] == t;
  }

  lemma {:induction false} CrlfHasNoSections(lines: seq<string>)
    ensures SectionAfter(Ini.Classify, Crlf(lines)) == ""
    ensures forall i :: 0 <= i < |Assignments(Ini.Classify, Crlf(lines))|
                ==> Assignments(Ini.Classify, Crlf(lines))[i].section == ""
  {
    if lines != [] {
      var n := |lines| - 1;
      CrlfHasNoSections(lines[..n]);
      assert Crlf(lines)[..n] == Crlf(lines[..n]);
      CrIsNoSection(lines[n]);
    }
  }

  /** What `fgets` returns of a file with CR LF line ends; the LF may lack at its end. */
  ghost predicate CrlfBuffersOf(buffers: seq<string>, lines: seq<string>) {
    && |buffers| == |lines|
    && forall i :: 0 <= i < |lines| ==> buffers[i] == lines[i] + "\r\n" || buffers[i] == lines[i] + "\r"
  }

  /** In a file with CR LF line ends the daemon recognises no section, hence no
      `min_uid`; the PAM module reads the file as if the CRs were not there. So they agree
      exactly when the PAM module comes out at the default. */
  lemma CrlfParts(lines: seq<string>, buffers: seq<string>)
    requires CrlfBuffersOf(buffers, lines)
    ensures Ini.MinUid(Crlf(lines)) == DEFAULT_MIN_UID
    ensures Pam.MinUid(Pam.CStrings(buffers)) == Pam.MinUid(Pam.CStrings(lines))
    ensures Pam.MinUid(Pam.CStrings(buffers)) == Ini.MinUid(Crlf(lines)) <==>
            Pam.MinUid(Pam.CStrings(lines)) == DEFAULT_MIN_UID
  {
    var xs := Assignments(Ini.Classify, Crlf(lines));
    CrlfHasNoSections(lines);
    Ini.MinUidMeaning(Crlf(lines));
    LastInIsLast("Security", xs);
    LastInIsLast("General", xs);
    CrlfInvisible(lines, buffers);
  }

  lemma CrlfInvisible(lines: seq<string>, buffers: seq<string>)
    requires CrlfBuffersOf(buffers, lines)
    ensures Assignments(Pam.Classify, Pam.CStrings(buffers)) == Assignments(Pam.Classify, Pam.CStrings(lines))
  {
    forall i | 0 <= i < |lines|
      ensures Alike(Pam.Classify(Pam.CStrings(buffers)[i]), Pam.Classify(Pam.CStrings(lines)[i]))
    {
      CrlfLine(lines[i], buffers[i]);
    }
    SameAssignments(Pam.Classify, Pam.CStrings(buffers), Pam.Classify, Pam.CStrings(lines));
  }

  lemma CrlfLine(line: string, buffer: string)
    requires buffer == line + "\r\n" || buffer == line + "\r"
    ensures Pam.Classify(CString(buffer)) == Pam.Classify(CString(line))
  {
    if '\0' in line {
      FindIs(buffer, '\0', Find(line, '\0'));
      assert CString(buffer) == CString(line);
    } else {
      CStringWithoutNul(line);
      CStringWithoutNul(buffer);
      StripTrailing(line, '\r', PAM_BLANKS);
      StripTrailing(line + "\r", '\n', PAM_BLANKS);
      assert line + "\r" + "\n" == line + "\r\n";
    }
  }
}
