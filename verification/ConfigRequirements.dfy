/** How the two readers take the configuration file apart, from the outside: lines,
    sections and numbers by their characters. */
module ConfigRequirements {
  import opened Text
  import opened Domain
  import opened ConfigLines
  import Pam = PamConfig
  import Ini = IniConfig

  // ---------------------------------------------------------------------------
  // Numbers
  // ---------------------------------------------------------------------------

  predicate DigitCode(ch: char) {
    48 <= ch as int <= 57
  }

  /** `acc` continued with the digits of `s`, from the front. */
  function ValueFrom(acc: nat, s: string): int
    decreases |s|
  {
    if s == "" then acc
    else if DigitCode(s[0]) then ValueFrom(10 * acc + (s[0] as int - 48), s[1..])
    else ValueFrom(10 * acc, s[1..])
  }

  lemma {:induction false} ValueSnoc(acc: nat, s: string, ch: char)
    ensures ValueFrom(acc, s) >= 0
    ensures ValueFrom(acc, s + [ch]) == 10 * ValueFrom(acc, s) + if DigitCode(ch) then ch as int - 48 else 0
    decreases |s|
  {
    if s == "" {
      assert [ch][1..] == "" && s + [ch] == [ch];
    } else {
      var next := if DigitCode(s[0]) then 10 * acc + (s[0] as int - 48) else 10 * acc;
      ValueSnoc(next, s[1..], ch);
      assert (s + [ch])[0] == s[0] && (s + [ch])[1..] == s[1..] + [ch];
    }
  }

  lemma DigitsAre(ch: char)
    ensures ch in DIGITS <==> DigitCode(ch)
  {
  }

  lemma {:induction false} NumberIsValue(s: string)
    ensures Number(s) == ValueFrom(0, s)
  {
    if s != "" {
      var n := |s| - 1;
      NumberIsValue(s[..n]);
      ValueSnoc(0, s[..n], s[n]);
      DigitsAre(s[n]);
      assert s == s[..n] + [s[n]];
    }
  }

  /** `s` is `digits` and `rest`, and all digits at its start are in `digits`. */
  ghost predicate CutDigits(s: string, digits: string, rest: string) {
    && s == digits + rest
    && (forall i :: 0 <= i < |digits| ==> DigitCode(digits[i]))
    && (rest != "" ==> !DigitCode(rest[0]))
  }

  lemma DigitRunCuts(s: string)
    ensures CutDigits(s, DigitRun(s), s[Lead(s, DIGITS)..])
  {
    forall ch
      ensures ch in DIGITS <==> DigitCode(ch)
    {
      DigitsAre(ch);
    }
    var n := Lead(s, DIGITS);
    assert s == s[..n] + s[n..];
  }

  predicate SpaceCode(ch: char) {
    ch as int == 32 || 9 <= ch as int <= 13
  }

  /** `value` is white space, a sign or none, digits, and the rest, each as long as can be. */
  ghost predicate CutSigned(value: string, spaces: string, sign: string, digits: string, rest: string) {
    && value == spaces + (sign + (digits + rest))
    && (forall i :: 0 <= i < |spaces| ==> SpaceCode(spaces[i]))
    && sign in {"", "+", "-"} && CutDigits(digits + rest, digits, rest)
    && (sign == "" && digits + rest != "" ==>
          (digits + rest)[0] !in {'+', '-'} && !SpaceCode((digits + rest)[0]))
  }

  /** The user id of a number: it saturates at 64 bits, a minus sign turns it round, and it
      is cut to 32 bits. */
  function PamId(n: int, negated: bool): nat
    requires n >= 0
  {
    if n > 18446744073709551615 then 4294967295
    else if negated then (18446744073709551616 - n) % 4294967296
    else n % 4294967296
  }

  lemma PamIdIs(n: nat)
    ensures PamId(n, false) == (if n > ULONG_MAX then ULONG_MAX else n) % UID_MODULUS
    ensures PamId(n, true) == (if n > ULONG_MAX then ULONG_MAX else SizeSub(0, n)) % UID_MODULUS
  {
    if 0 < n <= ULONG_MAX {
      assert (0 - n) % SIZE_MODULUS == SIZE_MODULUS - n;
    } else if n == 0 {
      assert SizeSub(0, 0) == 0;
    }
  }

  lemma SpacesAre(ch: char)
    ensures ch in SPACES <==> SpaceCode(ch)
  {
  }

  lemma SplitSign(t: string) returns (sign: string, u: string)
    ensures t == sign + u && sign in {"", "+", "-"}
    ensures sign == "" ==> (t != "" ==> t[0] !in {'+', '-'}) && u == t
    ensures sign != "" ==> t != "" && t[0] == sign[0] && u == t[1..]
  {
    if t != "" && t[0] == '+' {
      sign, u := "+", t[1..];
    } else if t != "" && t[0] == '-' {
      sign, u := "-", t[1..];
    } else {
      sign, u := "", t;
    }
  }

  lemma SpacesBefore(s: string)
    ensures forall i :: 0 <= i < Lead(s, SPACES) ==> SpaceCode(s[i])
    ensures Lead(s, SPACES) < |s| ==> !SpaceCode(s[Lead(s, SPACES)])
  {
    forall i | 0 <= i < |s|
      ensures s[i] in SPACES <==> SpaceCode(s[i])
    {
      SpacesAre(s[i]);
    }
  }

  lemma CutsSigned(value: string, t: string, sign: string, u: string)
    requires t == value[Lead(value, SPACES)..] && t == sign + u && sign in {"", "+", "-"}
    requires sign == "" ==> t != "" ==> t[0] !in {'+', '-'}
    ensures CutSigned(value, value[..Lead(value, SPACES)], sign, DigitRun(u), u[Lead(u, DIGITS)..])
  {
    SpacesBefore(value);
    DigitRunCuts(u);
    PiecesCut(value, value[..Lead(value, SPACES)], t, sign, u, DigitRun(u), u[Lead(u, DIGITS)..]);
  }

  lemma PiecesCut(value: string, spaces: string, t: string, sign: string, u: string, digits: string, rest: string)
    requires value == spaces + t && t == sign + u && sign in {"", "+", "-"} && CutDigits(u, digits, rest)
    requires (forall i :: 0 <= i < |spaces| ==> SpaceCode(spaces[i])) && (t != "" ==> !SpaceCode(t[0]))
    requires sign == "" ==> t != "" ==> t[0] !in {'+', '-'}
    ensures CutSigned(value, spaces, sign, digits, rest)
  {
    assert u == digits + rest;
    if sign == "" {
      assert t == u;
    }
  }

  lemma PamNumber(value: string, t: string, sign: string, u: string)
    requires t == value[Lead(value, SPACES)..] && sign in {"", "+", "-"}
    requires sign == "" ==> (t != "" ==> t[0] !in {'+', '-'}) && u == t
    requires sign != "" ==> t != "" && t[0] == sign[0] && u == t[1..]
    ensures Pam.ValidUid(value) ==
            if DigitRun(u) == "" || value[0] == '-' then None else Some(PamId(Number(DigitRun(u)), sign == "-"))
  {
    PamIdIs(Number(DigitRun(u)));
    if sign == "-" {
      assert t[0] == '-';
    } else if sign == "+" {
      assert t[0] == '+';
    }
  }

  /** The PAM module skips white space and takes one sign and the digits behind it; it
      refuses text that starts with a minus sign or has no digits there. */
  lemma PamValueMeaning(value: string) returns (spaces: string, sign: string, digits: string, rest: string)
    ensures CutSigned(value, spaces, sign, digits, rest) && ValueFrom(0, digits) >= 0
    ensures digits != "" ==> value != ""
    ensures Pam.ValidUid(value) ==
            if digits == "" || value[0] == '-' then None else Some(PamId(ValueFrom(0, digits), sign == "-"))
  {
    var t, u := value[Lead(value, SPACES)..], "";
    sign, u := SplitSign(t);
    spaces, digits, rest := value[..Lead(value, SPACES)], DigitRun(u), u[Lead(u, DIGITS)..];
    CutsSigned(value, t, sign, u);
    PamNumber(value, t, sign, u);
    NumberIsValue(digits);
  }

  /** The daemon takes one minus sign and the digits behind it, and what does not come out
      from 0 to 2^31 - 1 means 1000. */
  lemma IniValueMeaning(value: string) returns (sign: string, digits: string, rest: string)
    ensures value == sign + (digits + rest) && sign in {"", "-"} && CutDigits(digits + rest, digits, rest)
    ensures sign == "" && value != "" ==> value[0] != '-'
    ensures Ini.UidOfValue(value) ==
            var n := ValueFrom(0, digits);
            if digits != "" && n == 0 then 0
            else if digits != "" && sign == "" && n <= 2147483647 then n
            else 1000
  {
    var u: string;
    if value != "" && value[0] == '-' {
      sign, u := "-", value[1..];
    } else {
      sign, u := "", value;
    }
    digits, rest := DigitRun(u), u[Lead(u, DIGITS)..];
    DigitRunCuts(u);
    NumberIsValue(digits);
    assert value == sign + u;
  }

  // ---------------------------------------------------------------------------
  // Lines
  // ---------------------------------------------------------------------------

  /** `core` is `s` without the blanks at its ends. */
  ghost predicate IsTrimmed(s: string, core: string, blanks: set<char>) {
    && (core != "" ==> core[0] !in blanks && core[|core| - 1] !in blanks)
    && exists i, j :: 0 <= i <= j <= |s| && s[i..j] == core
                      && (forall k :: 0 <= k < i ==> s[k] in blanks) && (forall k :: j <= k < |s| ==> s[k] in blanks)
  }

  predicate IsHeading(core: string) {
    |core| >= 2 && core[0] == '[' && core[|core| - 1] == ']'
  }

  /** What a line with this text between its blanks says: nothing if empty, a comment, or
      without an equals sign; a section if in brackets; else the trimmed key before the
      first equals sign and the trimmed value behind it. */
  ghost predicate Says(core: string, l: Line, blanks: set<char>, marks: set<char>) {
    if core == "" || core[0] in marks then l == Skip
    else if IsHeading(core) then l.Section? && core == "[" + l.name + "]"
    else if '=' !in core then l == Skip
    else
      l.Setting? && exists p :: 0 <= p < |core| && core[p] == '=' && '=' !in core[..p]
                                && IsTrimmed(core[..p], l.key, blanks) && IsTrimmed(core[p + 1..], l.value, blanks)
  }

  lemma StripTrims(s: string, blanks: set<char>)
    ensures IsTrimmed(s, Strip(s, blanks), blanks)
  {
    var i, j := StripIsMaximal(s, blanks);
    assert forall k :: 0 <= k < i ==> s[k] in blanks;
    assert forall k :: j <= k < |s| ==> s[k] in blanks;
  }

  /** Text that cannot be trimmed in front is trimmed by dropping blanks behind. */
  lemma UntilTrims(s: string, blanks: set<char>)
    requires s != "" ==> s[0] !in blanks
    ensures IsTrimmed(s, s[..Until(s, blanks)], blanks)
  {
    var j := Until(s, blanks);
    assert s[0..j] == s[..j];
    assert forall k :: j <= k < |s| ==> s[k] in blanks;
  }

  lemma LeadTrims(s: string, blanks: set<char>)
    requires s != "" ==> s[|s| - 1] !in blanks
    ensures IsTrimmed(s, s[Lead(s, blanks)..], blanks)
  {
    var i := Lead(s, blanks);
    assert s[i..|s|] == s[i..];
    assert forall k :: 0 <= k < i ==> s[k] in blanks;
  }

  lemma HeadingText(core: string)
    requires core != "" && core[0] == '[' && core[|core| - 1] == ']'
    ensures IsHeading(core) && core == "[" + core[1..|core| - 1] + "]"
  {
    assert |core| >= 2;
  }

  lemma CutAtFirst(core: string, p: nat)
    requires p == Find(core, '=')
    ensures '=' !in core[..p] && ('=' in core <==> p < |core|)
  {
    if p < |core| {
      assert core[p] == '=';
    }
  }

  /** The PAM module: comments start with ; or #, and CR and LF are blanks too. */
  lemma PamLineMeaning(line: string) returns (core: string)
    ensures IsTrimmed(line, core, {' ', '\t', '\r', '\n'})
    ensures Says(core, Pam.Classify(line), {' ', '\t', '\r', '\n'}, {';', '#'})
  {
    core := Strip(line, PAM_BLANKS);
    StripTrims(line, PAM_BLANKS);
    StripEnds(line, PAM_BLANKS);
    PamTextMeaning(core);
  }

  lemma PamTextMeaning(core: string)
    ensures Says(core, Pam.ClassifyText(core), PAM_BLANKS, {';', '#'})
  {
    if core != "" && core[0] !in {';', '#'} {
      if core[0] == '[' && core[|core| - 1] == ']' {
        HeadingText(core);
      } else {
        var p := Find(core, '=');
        CutAtFirst(core, p);
        if p < |core| {
          StripTrims(core[..p], PAM_BLANKS);
          StripTrims(core[p + 1..], PAM_BLANKS);
        }
      }
    }
  }

  /** The daemon: comments start with ; only, and only blank and tab are blanks. */
  lemma IniLineMeaning(line: string) returns (core: string)
    ensures IsTrimmed(line, core, {' ', '\t'})
    ensures Says(core, Ini.Classify(line), {' ', '\t'}, {';'})
  {
    core := Strip(line, INI_BLANKS);
    StripTrims(line, INI_BLANKS);
    StripEnds(line, INI_BLANKS);
    IniTextMeaning(core);
  }

  lemma IniTextMeaning(core: string)
    requires core != "" ==> core[0] !in INI_BLANKS && core[|core| - 1] !in INI_BLANKS
    ensures Says(core, Ini.ClassifyText(core), INI_BLANKS, {';'})
  {
    if core != "" && core[0] != ';' {
      if core[0] == '[' && core[|core| - 1] == ']' {
        HeadingText(core);
      } else {
        var p := Find(core, '=');
        CutAtFirst(core, p);
        if p < |core| {
          UntilTrims(core[..p], INI_BLANKS);
          LeadTrims(core[p + 1..], INI_BLANKS);
        }
      }
    }
  }

  // ---------------------------------------------------------------------------
  // Sections
  // ---------------------------------------------------------------------------

  /** Line `i` stands under the heading `name`: the last one before it, or "" if there is
      none. */
  ghost predicate StandsUnder(f: string -> Line, lines: seq<string>, i: nat, name: string)
    requires i <= |lines|
  {
    || (exists j :: 0 <= j < i && f(lines[j]) == Section(name) && forall k :: j < k < i ==> !f(lines[k]).Section?)
    || (name == "" && forall k :: 0 <= k < i ==> !f(lines[k]).Section?)
  }

  lemma {:induction false} SectionAfterMeaning(f: string -> Line, lines: seq<string>)
    ensures StandsUnder(f, lines, |lines|, SectionAfter(f, lines))
  {
    if lines != [] {
      var n := |lines| - 1;
      SectionAfterMeaning(f, lines[..n]);
      assert forall k :: 0 <= k < n ==> lines[..n][k] == lines[k];
    }
  }

  /** `at` are the positions of the lines that set `min_uid`, in order. */
  ghost predicate ArePositions(f: string -> Line, lines: seq<string>, at: seq<nat>) {
    && (forall i, j :: 0 <= i < j < |at| ==> at[i] < at[j])
    && (forall k: nat :: k in at <==> k < |lines| && f(lines[k]).Setting? && f(lines[k]).key == "min_uid")
  }

  lemma StandsUnderMore(f: string -> Line, lines: seq<string>, i: nat, name: string)
    requires lines != [] && i < |lines| && StandsUnder(f, lines[..|lines| - 1], i, name)
    ensures StandsUnder(f, lines, i, name)
  {
    var before := lines[..|lines| - 1];
    assert forall k :: 0 <= k < |before| ==> before[k] == lines[k];
    if j :| 0 <= j < i && f(before[j]) == Section(name) && forall k :: j < k < i ==> !f(before[k]).Section? {
      assert f(lines[j]) == Section(name);
    }
  }

  lemma PositionsMore(f: string -> Line, lines: seq<string>, at: seq<nat>)
    requires lines != [] && ArePositions(f, lines[..|lines| - 1], at)
    ensures ArePositions(f, lines, at + if SetsMinUid(f(lines[|lines| - 1])) then [|lines| - 1] else [])
  {
    var n := |lines| - 1;
    var before := lines[..n];
    var after := at + if SetsMinUid(f(lines[n])) then [n] else [];
    forall i | 0 <= i < |at|
      ensures at[i] < n
    {
      assert at[i] in at;
    }
    forall k: nat
      ensures k in after <==> k < |lines| && f(lines[k]).Setting? && f(lines[k]).key == "min_uid"
    {
      assert k < n ==> before[k] == lines[k];
      assert k in after <==> k in at || (SetsMinUid(f(lines[n])) && k == n);
    }
  }

  /** The setting at one position, with its value and the heading it stands under. */
  ghost predicate IsSettingAt(f: string -> Line, lines: seq<string>, i: nat, x: Assignment) {
    i < |lines| && f(lines[i]) == Setting("min_uid", x.value) && StandsUnder(f, lines, i, x.section)
  }

  /** The settings the readers go by: one for every line that sets `min_uid`. */
  lemma {:induction false} AssignmentsMeaning(f: string -> Line, lines: seq<string>) returns (at: seq<nat>)
    ensures ArePositions(f, lines, at) && |Assignments(f, lines)| == |at|
    ensures forall i :: 0 <= i < |at| ==> IsSettingAt(f, lines, at[i], Assignments(f, lines)[i])
  {
    if lines == [] {
      at := [];
    } else {
      var n := |lines| - 1;
      at := AssignmentsMeaning(f, lines[..n]);
      PositionsMore(f, lines, at);
      SectionAfterMeaning(f, lines[..n]);
      forall i | 0 <= i < |at|
        ensures IsSettingAt(f, lines, at[i], Assignments(f, lines[..n])[i])
      {
        assert lines[..n][at[i]] == lines[at[i]];
        StandsUnderMore(f, lines, at[i], Assignments(f, lines[..n])[i].section);
      }
      if SetsMinUid(f(lines[n])) {
        StandsUnderMore(f, lines, n, SectionAfter(f, lines[..n]));
        at := at + [n];
      } else {
        assert at + [] == at;
      }
    }
  }

  /** A file without any such line means 1000 to either reader. */
  lemma NothingConfigured(lines: seq<string>)
    ensures Assignments(Ini.Classify, lines) == [] ==> Ini.MinUid(lines) == 1000
    ensures Assignments(Pam.Classify, lines) == [] ==> Pam.MinUid(lines) == 1000
  {
    Ini.MinUidMeaning(lines);
  }
}
