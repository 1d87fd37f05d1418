/** Whole files on which the two readers of `min_uid` can be compared. */
module MinUidFiles {
  import opened Text
  import opened Domain
  import opened ConfigLines
  import opened MinUidAgreement
  import Pam = PamConfig
  import Ini = IniConfig

  /** The text of a line that sets `min_uid`. */
  predicate SoundValue(value: string) {
    && NoneOf(value, BREAKS) && '\0' !in value
    && value != "" && value[0] !in INI_BLANKS && value[|value| - 1] !in INI_BLANKS
  }

  /** Both readers cut a line without outer blanks at its first equals sign. */
  lemma CutAtEquals(key: string, val: string)
    requires NoneOf(key, BREAKS) && '=' !in key && key != "" && key[0] !in {';', '['} && key[0] !in INI_BLANKS
    requires NoneOf(val, BREAKS) && val != "" && val[|val| - 1] !in INI_BLANKS
    ensures Ini.Classify(key + "=" + val) == Ini.SettingOf(key, val)
    ensures SetsMinUid(Ini.SettingOf(key, val)) ==> Pam.Classify(key + "=" + val) == Ini.SettingOf(key, val)
  {
    var line := key + "=" + val;
    StripFixed(line, INI_BLANKS);
    assert line[|key|] == '=' && forall i :: 0 <= i < |key| ==> line[i] == key[i];
    FindIs(line, '=', |key|);
    assert line[..|key|] == key && line[|key| + 1..] == val;
    SameLine(line);
  }

  /** A line that sets `min_uid`. */
  function MinUidLine(value: string): string {
    "min_uid " + "=" + (" " + value)
  }

  lemma SettingOfValue(key: string, value: string)
    requires SoundValue(value) && key == "min_uid "
    ensures Ini.SettingOf(key, " " + value) == Setting("min_uid", value)
  {
    var val := " " + value;
    UntilIs(key, INI_BLANKS, 7);
    LeadIs(val, INI_BLANKS, 1);
    assert key[..7] == "min_uid" && val[1..] == value;
  }

  lemma SettingLine(value: string)
    requires SoundValue(value)
    ensures Ini.Classify(MinUidLine(value)) == Setting("min_uid", value) == Pam.Classify(MinUidLine(value))
    ensures NoneOf(MinUidLine(value), BREAKS) && '\0' !in MinUidLine(value)
  {
    SettingLineOf("min_uid ", " " + value, value);
  }

  lemma SettingLineOf(key: string, val: string, value: string)
    requires SoundValue(value) && key == "min_uid " && val == " " + value
    ensures Ini.Classify(key + "=" + val) == Setting("min_uid", value) == Pam.Classify(key + "=" + val)
    ensures NoneOf(key + "=" + val, BREAKS) && '\0' !in key + "=" + val
  {
    SettingOfValue(key, value);
    SoundPieces(key, val, value);
    CutAtEquals(key, val);
  }

  lemma SoundPieces(key: string, val: string, value: string)
    requires SoundValue(value) && key == "min_uid " && val == " " + value
    ensures NoneOf(key, BREAKS) && '=' !in key && key[0] !in {';', '['} && key[0] !in INI_BLANKS
    ensures NoneOf(val, BREAKS) && val[|val| - 1] !in INI_BLANKS
    ensures NoneOf(key + "=" + val, BREAKS) && '\0' !in key + "=" + val
  {
  }

  lemma HeadingLine(line: string, name: string)
    requires line == "[" + name + "]" && NoneOf(name, BREAKS) && '\0' !in name
    ensures Ini.Classify(line) == Section(name) == Pam.Classify(line)
    ensures NoneOf(line, BREAKS) && '\0' !in line
  {
    StripFixed(line, INI_BLANKS);
    assert line[1..|line| - 1] == name;
    SameLine(line);
  }

  lemma SecurityText(line: string, name: string)
    requires line == "[Security]" && name == "Security"
    ensures line == "[" + name + "]" && NoneOf(name, BREAKS) && '\0' !in name
  {
  }

  lemma SecurityLine(line: string)
    requires line == "[Security]"
    ensures Ini.Classify(line) == Section("Security") == Pam.Classify(line)
    ensures NoneOf(line, BREAKS) && '\0' !in line
  {
    SecurityText(line, "Security");
    HeadingLine(line, "Security");
  }

  lemma HeadingThenSetting(f: string -> Line, heading: string, setting: string, value: string)
    requires f(heading) == Section("Security") && f(setting) == Setting("min_uid", value)
    ensures Assignments(f, [heading, setting]) == [Assignment("Security", value)]
  {
    OneMoreAssignment(f, [], heading);
    OneMoreAssignment(f, [heading], setting);
    assert [] + [heading] == [heading] && [heading] + [setting] == [heading, setting];
  }

  lemma SoundFile(heading: string, setting: string, value: string)
    requires Ini.Classify(heading) == Section("Security") && Ini.Classify(setting) == Setting("min_uid", value)
    requires NoneOf(heading, BREAKS) && '\0' !in heading && NoneOf(setting, BREAKS) && '\0' !in setting
    ensures BuffersOf([heading, setting], [heading, setting])
    ensures Assignments(Ini.Classify, [heading, setting]) == [Assignment("Security", value)]
  {
    HeadingThenSetting(Ini.Classify, heading, setting, value);
  }

  /** A file of two lines for every value: the theorems about its last [Security] value
      are about something. */
  lemma SecurityFile(value: string) returns (lines: seq<string>)
    requires SoundValue(value)
    ensures lines == ["[Security]", MinUidLine(value)] && BuffersOf(lines, lines)
    ensures LastIn("Security", Assignments(Ini.Classify, lines)) == Some(value)
  {
    var heading, setting := "[Security]", MinUidLine(value);
    lines := [heading, setting];
    SecurityLine(heading);
    SettingLine(value);
    SoundFile(heading, setting, value);
  }

  /** In particular one for every decimal numeral. */
  lemma DecimalFile(n: nat) returns (lines: seq<string>)
    ensures lines == ["[Security]", MinUidLine(Decimal(n))]
    ensures Pam.MinUid(Pam.CStrings(lines)) == Ini.MinUid(lines) <==>
            n < INT_LIMIT || (n <= ULONG_MAX && n % UID_MODULUS == DEFAULT_MIN_UID)
  {
    DigitsAreSound(n);
    lines := SecurityFile(Decimal(n));
    DecimalFilesAgreeExactly(lines, lines, n);
  }

  lemma DigitsAreSound(n: nat)
    ensures SoundValue(Decimal(n))
  {
    NumberOfDecimal(n);
    var s := Decimal(n);
    assert forall i :: 0 <= i < |s| ==> s[i] in DIGITS;
  }

  /** Three lines: a heading, something that is no setting, and a setting. */
  lemma HeadingAndSetting(f: string -> Line, heading: string, other: string, setting: string, value: string)
    requires f(heading) == Section("Security") && !f(other).Setting? && f(setting) == Setting("min_uid", value)
    ensures var section := if f(other).Section? then f(other).name else "Security";
            Assignments(f, [heading, other, setting]) == [Assignment(section, value)]
  {
    OneMoreAssignment(f, [], heading);
    OneMoreAssignment(f, [heading], other);
    OneMoreAssignment(f, [heading, other], setting);
    assert [] + [heading] == [heading] && [heading] + [other] == [heading, other];
    assert [heading, other] + [setting] == [heading, other, setting];
  }

  /** A file with a NUL in a heading: 1000 for the daemon, 5 for the PAM module. */
  lemma NulFileParts() returns (lines: seq<string>)
    ensures lines == ["[Security]", "[x\0]", "min_uid = 5"]
    ensures Ini.MinUid(lines) == DEFAULT_MIN_UID
    ensures Pam.MinUid(Pam.CStrings(lines)) == 5
  {
    var heading, other, setting := "[Security]", "[x\0]", "min_uid = 5";
    lines := [heading, other, setting];
    SecurityLine(heading);
    FiveLine(setting);
    NulLine(other);
    NulFileForDaemon(heading, other, setting);
    NulFileForPam(heading, other, setting);
  }

  lemma NulLine(other: string)
    requires other == "[x\0]"
    ensures Ini.Classify(other) == Section("x\0") && Pam.Classify(CString(other)) == Skip
  {
    NulParts("x");
    assert "[" + "x" + "\0]" == other;
  }

  lemma NulFileForDaemon(heading: string, other: string, setting: string)
    requires Ini.Classify(heading) == Section("Security") && Ini.Classify(other) == Section("x\0")
    requires Ini.Classify(setting) == Setting("min_uid", "5")
    ensures Ini.MinUid([heading, other, setting]) == DEFAULT_MIN_UID
  {
    HeadingAndSetting(Ini.Classify, heading, other, setting, "5");
    assert |"x\0"| != |"Security"| && |"x\0"| != |"General"|;
    OtherSection([heading, other, setting], "x\0", "5");
  }

  lemma NulFileForPam(heading: string, other: string, setting: string)
    requires Pam.Classify(heading) == Section("Security") && '\0' !in heading
    requires Pam.Classify(CString(other)) == Skip
    requires Pam.Classify(setting) == Setting("min_uid", "5") && '\0' !in setting
    ensures Pam.MinUid(Pam.CStrings([heading, other, setting])) == 5
  {
    var lines := Pam.CStrings([heading, other, setting]);
    CStringWithoutNul(heading);
    CStringWithoutNul(setting);
    assert lines == [heading, CString(other), setting];
    HeadingAndSetting(Pam.Classify, heading, CString(other), setting, "5");
    PlainFive();
    OnlySecurity(lines, "5");
  }

  lemma PlainFive()
    ensures Pam.ValidUid("5") == Some(5)
  {
    assert Decimal(5) == "5";
    PamReadsDecimal(5);
  }

  /** A file with CR LF line ends: 1000 for the daemon, 5 for the PAM module. */
  lemma CrlfFileParts() returns (lines: seq<string>, buffers: seq<string>)
    ensures lines == ["[Security]", "min_uid = 5"]
    ensures buffers == [lines[0] + "\r\n", lines[1] + "\r\n"]
    ensures Ini.MinUid(Crlf(lines)) == DEFAULT_MIN_UID
    ensures Pam.MinUid(Pam.CStrings(buffers)) == 5
  {
    var heading, setting := "[Security]", "min_uid = 5";
    SecurityLine(heading);
    FiveLine(setting);
    lines, buffers := CrlfFile(heading, setting);
  }

  lemma CrlfFile(heading: string, setting: string) returns (lines: seq<string>, buffers: seq<string>)
    requires Pam.Classify(heading) == Section("Security") && '\0' !in heading
    requires Pam.Classify(setting) == Setting("min_uid", "5") && '\0' !in setting
    ensures lines == [heading, setting] && buffers == [heading + "\r\n", setting + "\r\n"]
    ensures Ini.MinUid(Crlf(lines)) == DEFAULT_MIN_UID
    ensures Pam.MinUid(Pam.CStrings(buffers)) == 5
  {
    lines, buffers := [heading, setting], [heading + "\r\n", setting + "\r\n"];
    CrlfFileForPam(heading, setting);
    CrlfParts(lines, buffers);
  }

  lemma CrlfFileForPam(heading: string, setting: string)
    requires Pam.Classify(heading) == Section("Security") && '\0' !in heading
    requires Pam.Classify(setting) == Setting("min_uid", "5") && '\0' !in setting
    ensures Pam.MinUid(Pam.CStrings([heading, setting])) == 5
  {
    var lines := Pam.CStrings([heading, setting]);
    CStringWithoutNul(heading);
    CStringWithoutNul(setting);
    assert lines == [heading, setting];
    HeadingThenSetting(Pam.Classify, heading, setting, "5");
    PlainFive();
    OnlySecurity(lines, "5");
  }

  lemma FiveLine(setting: string)
    requires setting == "min_uid = 5"
    ensures Ini.Classify(setting) == Pam.Classify(setting) == Setting("min_uid", "5")
    ensures Pam.ValidUid("5") == Some(5) && '\0' !in setting
  {
    assert MinUidLine("5") == setting;
    SettingLine("5");
    PlainFive();
  }

  lemma OtherSection(lines: seq<string>, section: string, value: string)
    requires Assignments(Ini.Classify, lines) == [Assignment(section, value)]
    requires section != "Security" && section != "General"
    ensures Ini.MinUid(lines) == DEFAULT_MIN_UID
  {
    var xs := Assignments(Ini.Classify, lines);
    Ini.MinUidMeaning(lines);
    assert LastIn("Security", xs).None? && LastIn("General", xs).None?;
  }

  lemma OnlySecurity(lines: seq<string>, value: string)
    requires Assignments(Pam.Classify, lines) == [Assignment("Security", value)] && Pam.ValidUid(value).Some?
    ensures Pam.MinUid(lines) == Pam.ValidUid(value).value
  {
    LastSecurityCounts(Assignments(Pam.Classify, lines));
  }
}
