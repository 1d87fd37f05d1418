/** UTF-8 as the JSON library checks it. A `char` stands for one byte; larger
    characters are no bytes and occur in no well-formed text. */
module Utf8 {

  // ---------------------------------------------------------------------------
  // Well-formed text (section 4 of RFC 3629)
  // ---------------------------------------------------------------------------

  predicate Between(ch: char, lo: int, hi: int) {
    lo <= ch as int <= hi
  }

  predicate Tail(ch: char) {
    Between(ch, 0x80, 0xBF)
  }

  predicate StartsThree(a: char, b: char) {
    || (Between(a, 0xE0, 0xE0) && Between(b, 0xA0, 0xBF))
    || (Between(a, 0xE1, 0xEC) && Tail(b))
    || (Between(a, 0xED, 0xED) && Between(b, 0x80, 0x9F))
    || (Between(a, 0xEE, 0xEF) && Tail(b))
  }

  predicate StartsFour(a: char, b: char) {
    || (Between(a, 0xF0, 0xF0) && Between(b, 0x90, 0xBF))
    || (Between(a, 0xF1, 0xF3) && Tail(b))
    || (Between(a, 0xF4, 0xF4) && Between(b, 0x80, 0x8F))
  }

  /** The length of the character encoded at the start of `s`, or 0. */
  function CharLength(s: string): (n: nat)
    ensures n <= |s|
  {
    if |s| >= 1 && Between(s[0], 0, 0x7F) then 1
    else if |s| >= 2 && Between(s[0], 0xC2, 0xDF) && Tail(s[1]) then 2
    else if |s| >= 3 && StartsThree(s[0], s[1]) && Tail(s[2]) then 3
    else if |s| >= 4 && StartsFour(s[0], s[1]) && Tail(s[2]) && Tail(s[3]) then 4
    else 0
  }

  predicate IsUtf8(s: string)
    decreases |s|
  {
    s == "" || (CharLength(s) > 0 && IsUtf8(s[CharLength(s)..]))
  }

  // ---------------------------------------------------------------------------
  // The decoder of the JSON library
  // ---------------------------------------------------------------------------

  const ACCEPT: nat := 0
  const REJECT: nat := 1

  /** The first half of the decoder's table: the class of a byte. */
  function ByteClass(ch: char): nat {
    var b := ch as int;
    if b <= 0x7F then 0
    else if b <= 0x8F then 1
    else if b <= 0x9F then 9
    else if b <= 0xBF then 7
    else if b <= 0xC1 then 8
    else if b <= 0xDF then 2
    else if b == 0xE0 then 10
    else if b == 0xED then 4
    else if b <= 0xEF then 3
    else if b == 0xF0 then 11
    else if b <= 0xF3 then 6
    else if b == 0xF4 then 5
    else 8
  }

  /** The second half: the next state. */
  function Next(state: nat, group: nat): nat {
    match state
    case 0 =>
      (match group
       case 0 => ACCEPT
       case 2 => 2
       case 3 => 3
       case 4 => 5
       case 5 => 8
       case 6 => 7
       case 10 => 4
       case 11 => 6
       case _ => REJECT)
    case 2 => if group in {1, 7, 9} then ACCEPT else REJECT
    case 3 => if group in {1, 7, 9} then 2 else REJECT
    case 4 => if group == 7 then 2 else REJECT
    case 5 => if group in {1, 9} then 2 else REJECT
    case 6 => if group in {7, 9} then 3 else REJECT
    case 7 => if group in {1, 7, 9} then 3 else REJECT
    case 8 => if group == 1 then 3 else REJECT
    case _ => REJECT
  }

  /** `s` completes the character the decoder is in the middle of, and goes on well. */
  predicate Completes(state: nat, s: string) {
    match state
    case 0 => IsUtf8(s)
    case 2 => |s| >= 1 && Tail(s[0]) && IsUtf8(s[1..])
    case 3 => |s| >= 2 && Tail(s[0]) && Tail(s[1]) && IsUtf8(s[2..])
    case 4 => |s| >= 2 && Between(s[0], 0xA0, 0xBF) && Tail(s[1]) && IsUtf8(s[2..])
    case 5 => |s| >= 2 && Between(s[0], 0x80, 0x9F) && Tail(s[1]) && IsUtf8(s[2..])
    case 6 => |s| >= 3 && Between(s[0], 0x90, 0xBF) && Tail(s[1]) && Tail(s[2]) && IsUtf8(s[3..])
    case 7 => |s| >= 3 && Tail(s[0]) && Tail(s[1]) && Tail(s[2]) && IsUtf8(s[3..])
    case 8 => |s| >= 3 && Between(s[0], 0x80, 0x8F) && Tail(s[1]) && Tail(s[2]) && IsUtf8(s[3..])
    case _ => false
  }

  lemma DecodeStep(state: nat, s: string)
    requires s != ""
    ensures Completes(state, s) <==> Completes(Next(state, ByteClass(s[0])), s[1..])
  {
    assert |s| >= 2 ==> s[1..][1..] == s[2..];
    assert |s| >= 3 ==> s[1..][2..] == s[3..];
    assert |s| >= 4 ==> s[1..][3..] == s[4..];
  }

  /** `dump_escaped` with strict error handling, as far as it succeeds or throws. */
  method Dumps(s: string) returns (ok: bool)
    ensures ok <==> IsUtf8(s)
  {
    var state := ACCEPT;
    assert s[0..] == s;
    for i := 0 to |s|
      invariant IsUtf8(s) <==> Completes(state, s[i..])
    {
      DecodeStep(state, s[i..]);
      assert s[i..][1..] == s[i + 1..];
      state := Next(state, ByteClass(s[i]));
      if state == REJECT {
        return false;
      }
    }
    return state == ACCEPT;
  }

  // ---------------------------------------------------------------------------
  // ASCII
  // ---------------------------------------------------------------------------

  predicate Ascii(s: string) {
    forall i :: 0 <= i < |s| ==> Between(s[i], 0, 0x7F)
  }

  /** An ASCII prefix makes no difference. */
  lemma {:induction false} AsciiPrefix(p: string, s: string)
    requires Ascii(p)
    ensures IsUtf8(p + s) <==> IsUtf8(s)
  {
    if p == "" {
      assert p + s == s;
    } else {
      AsciiPrefix(p[1..], s);
      assert (p + s)[1..] == p[1..] + s;
    }
  }

  lemma AsciiIsUtf8(s: string)
    requires Ascii(s)
    ensures IsUtf8(s)
  {
    AsciiPrefix(s, "");
    assert s + "" == s;
  }
}
