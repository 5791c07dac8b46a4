/** When bytes are UTF-8 text (section 4 of RFC 3629), which is what `String::from_utf8` checks. Bytes are
    written as the characters with their codes. */
module Utf8 {

  predicate Between(s: string, i: nat, lo: int, hi: int) {
    i < |s| && lo <= s[i] as int <= hi
  }

  predicate Tail(s: string, i: nat) {
    Between(s, i, 0x80, 0xBF)
  }

  predicate Ascii(c: char) {
    c as int < 0x80
  }

  /** The number of bytes of the character at the front, or zero when there is none. */
  function CharLen(s: string): (n: nat)
    ensures n <= |s| && n <= 4
    ensures forall k | 1 <= k < n :: !Ascii(s[k])
  {
    if Between(s, 0, 0x00, 0x7F) then 1
    else if Between(s, 0, 0xC2, 0xDF) then if Tail(s, 1) then 2 else 0
    else if Between(s, 0, 0xE0, 0xEF) then if SecondOfThree(s) && Tail(s, 2) then 3 else 0
    else if Between(s, 0, 0xF0, 0xF4) then if SecondOfFour(s) && Tail(s, 2) && Tail(s, 3) then 4 else 0
    else 0
  }

  /** No overlong form, and no surrogate. */
  predicate SecondOfThree(s: string)
    requires s != []
  {
    match s[0] as int
    case 0xE0 => Between(s, 1, 0xA0, 0xBF)
    case 0xED => Between(s, 1, 0x80, 0x9F)
    case _ => Tail(s, 1)
  }

  /** No overlong form, and nothing beyond the last code point. */
  predicate SecondOfFour(s: string)
    requires s != []
  {
    match s[0] as int
    case 0xF0 => Between(s, 1, 0x90, 0xBF)
    case 0xF4 => Between(s, 1, 0x80, 0x8F)
    case _ => Tail(s, 1)
  }

  predicate Valid(s: string) {
    s == [] || (CharLen(s) > 0 && Valid(s[CharLen(s)..]))
  }

  /** A character is recognised by its own bytes. */
  lemma SameChar(s: string, t: string)
    requires CharLen(s) > 0 && CharLen(s) <= |t| && s[..CharLen(s)] == t[..CharLen(s)]
    ensures CharLen(t) == CharLen(s)
  {
    var n := CharLen(s);
    assert forall k | 0 <= k < n :: s[..n][k] == t[..n][k];
  }

  lemma {:induction false} ConcatIsValid(a: string, b: string)
    requires Valid(a) && Valid(b)
    ensures Valid(a + b)
    decreases |a|
  {
    if a == [] {
      assert a + b == b;
    } else {
      var n := CharLen(a);
      SameChar(a, a + b);
      ConcatIsValid(a[n..], b);
      assert (a + b)[n..] == a[n..] + b;
    }
  }

  /** Text may be cut in front of an ASCII byte, because a character that began before it would contain it. */
  lemma {:induction false} CutBeforeAscii(a: string, b: string)
    requires Valid(a + b) && b != [] && Ascii(b[0])
    ensures Valid(a) && Valid(b)
    decreases |a|
  {
    if a == [] {
      assert a + b == b;
    } else {
      var n := CharLen(a + b);
      assert (a + b)[|a|] == b[0];
      assert (a + b)[..n] == a[..n];
      SameChar(a + b, a);
      assert (a + b)[n..] == a[n..] + b;
      CutBeforeAscii(a[n..], b);
    }
  }

  /** And behind one. */
  lemma CutAfterAscii(a: string, c: char, b: string)
    requires Valid(a + [c] + b) && Ascii(c)
    ensures Valid(a + [c]) && Valid(b)
  {
    assert a + [c] + b == a + ([c] + b);
    CutBeforeAscii(a, [c] + b);
    assert ([c] + b)[1..] == b;
    AsciiIsValid(c);
    ConcatIsValid(a, [c]);
  }

  lemma AsciiIsValid(c: char)
    requires Ascii(c)
    ensures Valid([c])
  {
    assert [c][1..] == [];
  }
}
