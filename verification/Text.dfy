/** Strings as the C and C++ library calls in the source see them: character
    classes, searches that answer `npos`, trimming, and C string views. */
module Text {

  /** `std::string::npos` and the modulus of 64-bit `size_t` arithmetic. */
  const NPOS: nat := 0xFFFF_FFFF_FFFF_FFFF
  const SIZE_MODULUS: nat := 0x1_0000_0000_0000_0000

  /** The characters `isspace` accepts in the C locale. */
  const SPACES: set<char> := {' ', '\t', '\n', '\U{0B}', '\U{0C}', '\r'}
  /** The characters the daemon's configuration reader trims. */
  const INI_BLANKS: set<char> := {' ', '\t'}
  /** The characters the PAM module's configuration reader trims. */
  const PAM_BLANKS: set<char> := {' ', '\t', '\r', '\n'}

  function Min(a: int, b: int): int {
    if a < b then a else b
  }

  const BREAKS: set<char> := {'\r', '\n'}

  /** `size_t` addition and subtraction, which wrap. */
  function SizeAdd(a: nat, b: nat): nat {
    (a + b) % SIZE_MODULUS
  }

  function SizeSub(a: nat, b: nat): nat {
    (a - b) % SIZE_MODULUS
  }

  lemma SizeSubIs(a: nat, b: nat)
    requires a < NPOS
    ensures b <= a ==> SizeSub(a, b) == a - b
    ensures SizeSub(a, NPOS) == a + 1
  {
    assert a - NPOS + SIZE_MODULUS == a + 1;
  }

  lemma SizeAddIs(a: nat, b: nat)
    requires a <= NPOS && b <= 1
    ensures SizeAdd(a, b) == if a == NPOS && b == 1 then 0 else a + b
  {
  }

  predicate NoneOf(s: string, cs: set<char>) {
    forall i :: 0 <= i < |s| ==> s[i] !in cs
  }

  /** Every character of `s` at a position from `lo` up to `hi` is in `cs`. */
  predicate AllIn(s: string, lo: int, hi: int, cs: set<char>) {
    forall i :: 0 <= i < |s| && lo <= i < hi ==> s[i] in cs
  }

  /** Length of the longest prefix of `s` made of characters in `skip`. */
  function Lead(s: string, skip: set<char>): (n: nat)
    ensures n <= |s|
    ensures AllIn(s, 0, n, skip)
    ensures n < |s| ==> s[n] !in skip
  {
    if s == [] || s[0] !in skip then 0 else 1 + Lead(s[1..], skip)
  }

  /** Length of `s` without its longest suffix made of characters in `skip`. */
  function Until(s: string, skip: set<char>): (n: nat)
    ensures n <= |s|
    ensures AllIn(s, n, |s|, skip)
    ensures n > 0 ==> s[n - 1] !in skip
  {
    if s == [] || s[|s| - 1] !in skip then |s| else Until(s[..|s| - 1], skip)
  }

  /** `find_first_not_of` */
  function FindFirstNotOf(s: string, skip: set<char>): nat {
    if Lead(s, skip) == |s| then NPOS else Lead(s, skip)
  }

  /** `find_last_not_of` */
  function FindLastNotOf(s: string, skip: set<char>): nat {
    if Until(s, skip) == 0 then NPOS else Until(s, skip) - 1
  }

  /** `find` of one character; |s| stands for `npos`. */
  function Find(s: string, c: char): (n: nat)
    ensures n <= |s|
    ensures forall i :: 0 <= i < n ==> s[i] != c
    ensures n < |s| ==> s[n] == c
  {
    if s == [] || s[0] == c then 0 else 1 + Find(s[1..], c)
  }

  lemma FindIs(s: string, c: char, n: nat)
    requires n < |s| && s[n] == c && forall i :: 0 <= i < n ==> s[i] != c
    ensures Find(s, c) == n
  {
  }

  /** The text of `s` between its first and its last character outside `skip`. */
  function Strip(s: string, skip: set<char>): string {
    var t := s[Lead(s, skip)..];
    t[..Until(t, skip)]
  }

  /** `std::to_string` of a number that is not negative. */
  function Decimal(n: nat): (s: string)
    ensures s != ""
  {
    if n < 10 then [('0' as int + n) as char] else Decimal(n / 10) + [('0' as int + n % 10) as char]
  }

  /** A buffer read as a C string: everything before the first NUL. */
  function CString(s: string): string {
    s[..Find(s, '\0')]
  }

  lemma CStringWithoutNul(s: string)
    requires '\0' !in s
    ensures CString(s) == s
  {
  }

  ghost predicate Contains(s: string, t: string) {
    exists i, j :: 0 <= i <= j <= |s| && s[i..j] == t
  }

  /** Where trimming stops is determined by what it drops and what it keeps. */
  lemma LeadIs(s: string, skip: set<char>, n: nat)
    requires n <= |s| && AllIn(s, 0, n, skip) && (n < |s| ==> s[n] !in skip)
    ensures Lead(s, skip) == n
  {
  }

  lemma UntilIs(s: string, skip: set<char>, n: nat)
    requires n <= |s| && AllIn(s, n, |s|, skip) && (n > 0 ==> s[n - 1] !in skip)
    ensures Until(s, skip) == n
  {
  }

  /** `Strip` is the maximal stripped substring: only `skip` characters are
      dropped, and neither end of the result can be stripped further. */
  lemma StripIsMaximal(s: string, skip: set<char>) returns (i: nat, j: nat)
    ensures i <= j <= |s| && Strip(s, skip) == s[i..j]
    ensures AllIn(s, 0, i, skip) && AllIn(s, j, |s|, skip)
    ensures i < j ==> s[i] !in skip && s[j - 1] !in skip
  {
    i := Lead(s, skip);
    var t := s[i..];
    j := i + Until(t, skip);
    assert forall k :: j <= k < |s| ==> s[k] == t[k - i];
    assert i < j ==> s[j - 1] == t[Until(t, skip) - 1] && s[i] == t[0];
  }

  /** Text that already starts and ends outside `skip` is left alone. */
  lemma StripFixed(s: string, skip: set<char>)
    requires s != [] ==> s[0] !in skip && s[|s| - 1] !in skip
    ensures Strip(s, skip) == s && Lead(s, skip) == 0 && Until(s, skip) == |s|
  {
    LeadIs(s, skip, 0);
    assert s[0..] == s;
    UntilIs(s, skip, |s|);
    assert s[..|s|] == s;
  }

  /** The ends of a stripped text are outside `skip`. */
  lemma StripEnds(s: string, skip: set<char>)
    ensures var t := Strip(s, skip); t != [] ==> t[0] !in skip && t[|t| - 1] !in skip
  {
    var i, j := StripIsMaximal(s, skip);
  }

  /** Stripping adds no characters. */
  lemma StripKeepsOut(s: string, skip: set<char>, cs: set<char>)
    requires NoneOf(s, cs)
    ensures NoneOf(Strip(s, skip), cs)
  {
    var i, j := StripIsMaximal(s, skip);
  }

  /** Two skip sets that agree on the characters of `s` strip it alike. */
  lemma StripAgree(s: string, a: set<char>, b: set<char>)
    requires forall i :: 0 <= i < |s| ==> (s[i] in a <==> s[i] in b)
    ensures Lead(s, a) == Lead(s, b) && Until(s, a) == Until(s, b)
    ensures Strip(s, a) == Strip(s, b)
  {
    LeadIs(s, b, Lead(s, a));
    UntilIs(s, b, Until(s, a));
    var t := s[Lead(s, a)..];
    UntilIs(t, b, Until(t, a));
  }

  /** A trailing skipped character, such as the newline `fgets` keeps, is invisible. */
  lemma StripTrailing(s: string, c: char, skip: set<char>)
    requires c in skip
    ensures Strip(s + [c], skip) == Strip(s, skip)
  {
    var i := Lead(s, skip);
    if i == |s| {
      LeadIs(s + [c], skip, |s| + 1);
    } else {
      LeadIs(s + [c], skip, i);
      var t := s[i..];
      assert (s + [c])[i..] == t + [c];
      UntilIs(t + [c], skip, Until(t, skip));
    }
  }

  /** `std::string` comparison: lexicographic, a proper prefix first. */
  predicate LexLe(a: string, b: string) {
    a == [] || (b != [] && (a[0] < b[0] || (a[0] == b[0] && LexLe(a[1..], b[1..]))))
  }

  lemma {:induction false} LexTotal(a: string, b: string)
    ensures LexLe(a, b) || LexLe(b, a)
  {
    if a != [] && b != [] && a[0] == b[0] {
      LexTotal(a[1..], b[1..]);
    }
  }

  lemma {:induction false} LexAntisymmetric(a: string, b: string)
    requires LexLe(a, b) && LexLe(b, a)
    ensures a == b
  {
    if a != [] && b != [] {
      LexAntisymmetric(a[1..], b[1..]);
      assert a == [a[0]] + a[1..] && b == [b[0]] + b[1..];
    }
  }

  lemma {:induction false} LexTransitive(a: string, b: string, c: string)
    requires LexLe(a, b) && LexLe(b, c)
    ensures LexLe(a, c)
  {
    if a != [] && a[0] == b[0] && b[0] == c[0] {
      LexTransitive(a[1..], b[1..], c[1..]);
    }
  }
}
