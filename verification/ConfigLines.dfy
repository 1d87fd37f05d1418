/** What the two readers of the configuration file have in common: a line is skipped,
    opens a section, or sets a key; and numbers as the C libraries read them. */
module ConfigLines {
  import opened Text
  import opened Domain

  datatype Line = Skip | Section(name: string) | Setting(key: string, value: string)

  /** A `min_uid` setting with the section it stands in. */
  datatype Assignment = Assignment(section: string, value: string)

  const DEFAULT_MIN_UID := 1000

  /** The section in force behind `lines`. */
  function SectionAfter(classify: string -> Line, lines: seq<string>): string {
    if lines == [] then ""
    else
      var l := classify(lines[|lines| - 1]);
      if l.Section? then l.name else SectionAfter(classify, lines[..|lines| - 1])
  }

  predicate SetsMinUid(l: Line) {
    l.Setting? && l.key == "min_uid"
  }

  /** The `min_uid` settings of a file, in file order. */
  function Assignments(classify: string -> Line, lines: seq<string>): seq<Assignment> {
    if lines == [] then []
    else
      var before := lines[..|lines| - 1];
      var l := classify(lines[|lines| - 1]);
      Assignments(classify, before)
      + if SetsMinUid(l) then [Assignment(SectionAfter(classify, before), l.value)] else []
  }

  lemma OneMoreAssignment(classify: string -> Line, lines: seq<string>, line: string)
    ensures SectionAfter(classify, []) == "" && Assignments(classify, []) == []
    ensures var l, section := classify(line), SectionAfter(classify, lines);
            && SectionAfter(classify, lines + [line]) == (if l.Section? then l.name else section)
            && Assignments(classify, lines + [line]) ==
               Assignments(classify, lines) + if SetsMinUid(l) then [Assignment(section, l.value)] else []
  {
    assert (lines + [line])[..|lines|] == lines;
  }

  /** The last value assigned in a section. */
  function LastIn(section: string, xs: seq<Assignment>): Option<string> {
    if xs == [] then None
    else if xs[|xs| - 1].section == section then Some(xs[|xs| - 1].value)
    else LastIn(section, xs[..|xs| - 1])
  }

  lemma {:induction false} LastInIsLast(section: string, xs: seq<Assignment>)
    ensures LastIn(section, xs).None? ==> forall i :: 0 <= i < |xs| ==> xs[i].section != section
    ensures LastIn(section, xs).Some? ==>
              exists i :: 0 <= i < |xs| && xs[i] == Assignment(section, LastIn(section, xs).value)
                          && forall k :: i < k < |xs| ==> xs[k].section != section
  {
    if xs != [] && xs[|xs| - 1].section != section {
      LastInIsLast(section, xs[..|xs| - 1]);
    }
  }

  // ---------------------------------------------------------------------------
  // Numbers
  // ---------------------------------------------------------------------------

  const DIGITS: set<char> := {'0', '1', '2', '3', '4', '5', '6', '7', '8', '9'}
  const ULONG_MAX: nat := 0xFFFF_FFFF_FFFF_FFFF
  const UID_MODULUS: nat := 0x1_0000_0000
  const INT_LIMIT: nat := 0x8000_0000

  /** The value of a run of decimal digits. */
  function Number(digits: string): nat {
    if digits == "" then 0
    else
      var ch := digits[|digits| - 1];
      10 * Number(digits[..|digits| - 1]) + if ch in DIGITS then ch as nat - '0' as nat else 0
  }

  /** The digits at the start of `s`. */
  function DigitRun(s: string): string {
    s[..Lead(s, DIGITS)]
  }

  /** `strtoul` in base 10 with a 64-bit `unsigned long` (section 7.20.1.4 of ISO/IEC
      9899:1999); None when no conversion is performed. */
  function Strtoul(s: string): Option<nat> {
    var t := s[Lead(s, SPACES)..];
    var signed := t != "" && t[0] in {'+', '-'};
    var digits := DigitRun(if signed then t[1..] else t);
    if digits == "" then None
    else
      var v := Number(digits);
      Some(if v > ULONG_MAX then ULONG_MAX
           else if signed && t[0] == '-' then SizeSub(0, v)
           else v)
  }

  /** `std::from_chars` for `int`; None on no digits or a value out of range. */
  function FromChars(s: string): Option<int> {
    var negative := s != "" && s[0] == '-';
    var digits := DigitRun(if negative then s[1..] else s);
    if digits == "" then None
    else
      var n: int := Number(digits);
      var v := if negative then 0 - n else n;
      if 0 - INT_LIMIT as int <= v < INT_LIMIT then Some(v) else None
  }

  /** The value starts with digits that make a number below 2^31. */
  predicate Plain(value: string) {
    value != "" && value[0] in DIGITS && Number(DigitRun(value)) < INT_LIMIT
  }
}
