/** The daemon's configuration reader, as far as `min_uid` is concerned. */
module IniConfig {
  import opened Text
  import opened Domain
  import opened ConfigLines

  /** `line.erase(0, line.find_first_not_of(" \t"))` */
  method TrimLeft(s: string) returns (t: string)
    requires |s| < NPOS
    ensures t == s[Lead(s, INI_BLANKS)..]
  {
    t := s[Min(FindFirstNotOf(s, INI_BLANKS), |s|)..];
  }

  /** `s.erase(s.find_last_not_of(" \t") + 1)`; `npos + 1` wraps to 0. */
  method TrimRight(s: string) returns (t: string)
    requires |s| < NPOS
    ensures t == s[..Until(s, INI_BLANKS)]
  {
    var last := FindLastNotOf(s, INI_BLANKS);
    SizeAddIs(last, 1);
    t := s[..Min(SizeAdd(last, 1), |s|)];
  }

  function Classify(line: string): Line {
    ClassifyText(Strip(line, INI_BLANKS))
  }

  /** A trimmed line. */
  function ClassifyText(sv: string): Line {
    if sv == "" || sv[0] == ';' then Skip
    else if sv[0] == '[' && sv[|sv| - 1] == ']' then Section(sv[1..|sv| - 1])
    else
      var eq := Find(sv, '=');
      if eq < |sv| then SettingOf(sv[..eq], sv[eq + 1..]) else Skip
  }

  /** The text before and behind the equals sign. */
  function SettingOf(key: string, val: string): Line {
    Setting(key[..Until(key, INI_BLANKS)], val[Lead(val, INI_BLANKS)..])
  }

  /** The text a key is stored under. */
  function FullKey(section: string, key: string): string {
    section + "." + key
  }

  /** The last value the file stores under a full key. */
  function LastSetting(lines: seq<string>, full: string): Option<string> {
    if lines == [] then None
    else
      var before := lines[..|lines| - 1];
      var l := Classify(lines[|lines| - 1]);
      if l.Setting? && FullKey(SectionAfter(Classify, before), l.key) == full then Some(l.value)
      else LastSetting(before, full)
  }

  ghost predicate Holds(ini: map<string, string>, lines: seq<string>) {
    forall full :: LastSetting(lines, full) == if full in ini then Some(ini[full]) else None
  }

  lemma OneMoreLine(lines: seq<string>, line: string, full: string)
    ensures var l := Classify(line);
            && SectionAfter(Classify, lines + [line]) == (if l.Section? then l.name else SectionAfter(Classify, lines))
            && LastSetting(lines + [line], full) ==
               if l.Setting? && FullKey(SectionAfter(Classify, lines), l.key) == full then Some(l.value)
               else LastSetting(lines, full)
  {
    assert (lines + [line])[..|lines|] == lines;
  }

  /** How `parse_ini_stream` takes a line apart. */
  method ReadLine(raw: string) returns (l: Line)
    requires |raw| < NPOS
    ensures l == Classify(raw)
  {
    var line := TrimLeft(raw);
    if line == "" || line[0] == ';' {
      CommentStaysComment(raw);
      return Skip;
    }
    line := TrimRight(line);
    l := ReadText(line);
  }

  method ReadText(line: string) returns (l: Line)
    requires |line| < NPOS && line != "" && line[0] != ';'
    ensures l == ClassifyText(line)
  {
    if line[0] == '[' && line[|line| - 1] == ']' {
      return Section(line[1..|line| - 1]);
    }
    var eq := Find(line, '=');
    if eq < |line| {
      var key := TrimRight(line[..eq]);
      var val := TrimLeft(line[eq + 1..]);
      return Setting(key, val);
    }
    return Skip;
  }

  /** The comment test may come before trimming the end. */
  lemma CommentStaysComment(raw: string)
    requires var t := raw[Lead(raw, INI_BLANKS)..]; t == "" || t[0] == ';'
    ensures Classify(raw) == Skip
  {
    var t := raw[Lead(raw, INI_BLANKS)..];
    if Until(t, INI_BLANKS) > 0 {
      assert Strip(raw, INI_BLANKS)[0] == t[0];
    }
  }

  /** `parse_ini_stream`: the map holds, under every full key, the last value set. */
  method ParseIniStream(lines: seq<string>) returns (ini: map<string, string>)
    requires forall i :: 0 <= i < |lines| ==> |lines[i]| < NPOS
    ensures Holds(ini, lines)
  {
    ini := map[];
    var section := "";
    for i := 0 to |lines|
      invariant section == SectionAfter(Classify, lines[..i])
      invariant Holds(ini, lines[..i])
    {
      ghost var before := lines[..i];
      assert lines[..i + 1] == before + [lines[i]];
      forall full {
        OneMoreLine(before, lines[i], full);
      }
      var l := ReadLine(lines[i]);
      match l
      case Skip =>
      case Section(name) =>
        section := name;
      case Setting(key, val) =>
        ini := ini[FullKey(section, key) := val];
    }
    assert lines[..|lines|] == lines;
  }

  // ---------------------------------------------------------------------------
  // min_uid
  // ---------------------------------------------------------------------------

  /** The id the daemon takes from a value; a value it cannot read or a negative one
      means the default. */
  function UidOfValue(value: string): nat {
    var v := FromChars(value);
    if v.Some? && v.value >= 0 then v.value else DEFAULT_MIN_UID
  }

  function UidOfValues(security: Option<string>, general: Option<string>): nat {
    var s := security.GetOr("");
    var v := if s != "" then s else general.GetOr("");
    if v == "" then DEFAULT_MIN_UID else UidOfValue(v)
  }

  function MinUid(lines: seq<string>): nat {
    UidOfValues(LastSetting(lines, FullKey("Security", "min_uid")), LastSetting(lines, FullKey("General", "min_uid")))
  }

  function Get(ini: map<string, string>, full: string): string {
    if full in ini then ini[full] else ""
  }

  /** The `min_uid` part of `parse_ini_into_self`. */
  method LoadMinUid(lines: seq<string>) returns (minUid: nat)
    requires forall i :: 0 <= i < |lines| ==> |lines[i]| < NPOS
    ensures minUid == MinUid(lines)
  {
    var ini := ParseIniStream(lines);
    var parsed: int := DEFAULT_MIN_UID;
    assert LastSetting(lines, FullKey("Security", "min_uid")).GetOr("") == Get(ini, FullKey("Security", "min_uid"));
    assert LastSetting(lines, FullKey("General", "min_uid")).GetOr("") == Get(ini, FullKey("General", "min_uid"));
    var text := Get(ini, FullKey("Security", "min_uid"));
    if text == "" {
      text := Get(ini, FullKey("General", "min_uid"));
    }
    if text == "" {
      parsed := DEFAULT_MIN_UID;
    } else {
      var v := FromChars(text);
      if v.Some? {
        parsed := v.value;
      }
    }
    if parsed < 0 {
      parsed := DEFAULT_MIN_UID;
    }
    minUid := parsed;
  }

  // ---------------------------------------------------------------------------
  // Meaning
  // ---------------------------------------------------------------------------

  /** A full key with a single dot comes from one section and key only. */
  lemma FullKeySplits(section: string, key: string, wanted: string)
    requires '.' !in wanted
    ensures FullKey(section, key) == FullKey(wanted, "min_uid") <==> section == wanted && key == "min_uid"
  {
    var full, other := FullKey(section, key), FullKey(wanted, "min_uid");
    assert full[|section|] == '.';
    assert forall i :: 0 <= i < |wanted| ==> other[i] == wanted[i] && other[i] != '.';
    assert forall i :: |wanted| < i < |other| ==> other[i] == "min_uid"[i - |wanted| - 1] && other[i] != '.';
    assert full[..|section|] == section && full[|section| + 1..] == key;
    assert other[..|wanted|] == wanted && other[|wanted| + 1..] == "min_uid";
  }

  lemma {:induction false} LastSettingIsLastIn(lines: seq<string>, wanted: string)
    requires '.' !in wanted
    ensures LastSetting(lines, FullKey(wanted, "min_uid")) == LastIn(wanted, Assignments(Classify, lines))
  {
    if lines != [] {
      var n := |lines| - 1;
      LastSettingIsLastIn(lines[..n], wanted);
      var l := Classify(lines[n]);
      var section := SectionAfter(Classify, lines[..n]);
      if l.Setting? {
        FullKeySplits(section, l.key, wanted);
      }
      var xs := Assignments(Classify, lines[..n]);
      if SetsMinUid(l) {
        assert (xs + [Assignment(section, l.value)])[..|xs|] == xs;
      } else {
        assert Assignments(Classify, lines) == xs;
      }
    }
  }

  /** The daemon takes the last value under [Security] if it is not empty, else the last
      one under [General]; elsewhere `min_uid` is not looked up. */
  lemma MinUidMeaning(lines: seq<string>)
    ensures var xs := Assignments(Classify, lines);
            MinUid(lines) == UidOfValues(LastIn("Security", xs), LastIn("General", xs))
  {
    LastSettingIsLastIn(lines, "Security");
    LastSettingIsLastIn(lines, "General");
  }
}
