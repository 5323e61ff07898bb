/** UTF-8 (RFC 3629), a byte written as a character below 256. */
module Utf8 {

  predicate IsAscii(b: char) {
    b as int < 0x80
  }

  predicate IsContinuation(b: char) {
    0x80 <= b as int < 0xc0
  }

  /** How many bytes the character takes that starts with `b`; none starts so if zero. */
  function SequenceLength(b: char): nat {
    var n := b as int;
    if n < 0x80 then 1
    else if 0xc2 <= n < 0xe0 then 2
    else if 0xe0 <= n < 0xf0 then 3
    else if 0xf0 <= n < 0xf5 then 4
    else 0
  }

  /** No overlong form, no surrogate, nothing above the last code point. */
  predicate SecondFits(lead: char, second: char) {
    var n, m := lead as int, second as int;
    && (n == 0xe0 ==> m >= 0xa0) && (n == 0xed ==> m < 0xa0)
    && (n == 0xf0 ==> m >= 0x90) && (n == 0xf4 ==> m < 0x90)
  }

  /** The text begins with a character of `n` bytes. */
  predicate Begins(s: string, n: nat) {
    && 0 < n <= |s|
    && (forall i :: 1 <= i < n ==> IsContinuation(s[i]))
    && (n > 1 ==> SecondFits(s[0], s[1]))
  }

  predicate IsUtf8(s: string) {
    s == "" || (Begins(s, SequenceLength(s[0])) && IsUtf8(s[SequenceLength(s[0])..]))
  }

  /** A character starts, or the text ends, at `i`. */
  predicate IsBoundary(s: string, i: nat)
    requires i <= |s|
  {
    i == |s| || !IsContinuation(s[i])
  }

  /** After an ASCII byte a new character starts. */
  lemma {:induction false} AsciiEndsCharacter(s: string, i: nat)
    requires IsUtf8(s) && i < |s| && IsAscii(s[i])
    ensures IsBoundary(s, i + 1)
    decreases |s|
  {
    var n := SequenceLength(s[0]);
    if i >= n {
      AsciiEndsCharacter(s[n..], i - n);
    } else {
      assert i == 0 && n == 1;
      assert s[1..] != "" ==> s[1..][0] == s[1];
    }
  }

  lemma BeginsBefore(a: string, b: string, n: nat)
    requires Begins(a, n)
    ensures Begins(a + b, n)
  {
  }

  lemma OneMoreCharacter(a: string, b: string, n: nat)
    requires a != "" && n == SequenceLength(a[0]) && Begins(a, n) && IsUtf8(a[n..] + b)
    ensures IsUtf8(a + b)
  {
    BeginsBefore(a, b, n);
    assert (a + b)[n..] == a[n..] + b && (a + b)[0] == a[0];
  }

  lemma {:induction false} Utf8Concat(a: string, b: string)
    requires IsUtf8(a) && IsUtf8(b)
    ensures IsUtf8(a + b)
    decreases |a|
  {
    if a == "" {
      assert a + b == b;
    } else {
      var n := SequenceLength(a[0]);
      assert Begins(a, n) && IsUtf8(a[n..]);
      Utf8Concat(a[n..], b);
      OneMoreCharacter(a, b, n);
    }
  }

  lemma {:induction false} AsciiIsUtf8(s: string)
    requires forall i :: 0 <= i < |s| ==> IsAscii(s[i])
    ensures IsUtf8(s)
    decreases |s|
  {
    if s != "" {
      AsciiIsUtf8(s[1..]);
    }
  }

  // ---- the texts that are UTF-8 -----------------------------------------------

  /** A Unicode scalar value: a code point that is no surrogate. */
  predicate IsScalar(c: nat) {
    c < 0xd800 || 0xe000 <= c < 0x11_0000
  }

  /** The bytes of a character (section 3 of RFC 3629). */
  function Encoded(c: nat): (bytes: string)
    requires IsScalar(c)
    ensures bytes != ""
  {
    if c < 0x80 then [c as char]
    else if c < 0x800 then [(0xc0 + c / 0x40) as char, (0x80 + c % 0x40) as char]
    else if c < 0x1_0000 then
      [(0xe0 + c / 0x1000) as char, (0x80 + c / 0x40 % 0x40) as char, (0x80 + c % 0x40) as char]
    else
      [(0xf0 + c / 0x4_0000) as char, (0x80 + c / 0x1000 % 0x40) as char, (0x80 + c / 0x40 % 0x40) as char,
       (0x80 + c % 0x40) as char]
  }

  ghost predicate AllScalar(cs: seq<nat>) {
    forall i :: 0 <= i < |cs| ==> IsScalar(cs[i])
  }

  function EncodedText(cs: seq<nat>): string
    requires AllScalar(cs)
  {
    if cs == [] then "" else Encoded(cs[0]) + EncodedText(cs[1..])
  }

  lemma EncodedBegins(c: nat, rest: string)
    requires IsScalar(c)
    ensures var s := Encoded(c) + rest;
            SequenceLength(s[0]) == |Encoded(c)| && Begins(s, |Encoded(c)|) && s[|Encoded(c)|..] == rest
  {
    var e := Encoded(c);
    assert (e + rest)[0] == e[0] && (|e| > 1 ==> (e + rest)[1] == e[1]);
  }

  /** The value of the character a text begins with. */
  function FirstValue(s: string): nat
    requires s != "" && Begins(s, SequenceLength(s[0]))
  {
    var n := SequenceLength(s[0]);
    if n == 1 then s[0] as int
    else if n == 2 then (s[0] as int - 0xc0) * 0x40 + (s[1] as int - 0x80)
    else if n == 3 then (s[0] as int - 0xe0) * 0x1000 + (s[1] as int - 0x80) * 0x40 + (s[2] as int - 0x80)
    else
      (s[0] as int - 0xf0) * 0x4_0000 + (s[1] as int - 0x80) * 0x1000 + (s[2] as int - 0x80) * 0x40
      + (s[3] as int - 0x80)
  }

  lemma TwoDigits(a: nat, b: nat)
    requires b < 0x40
    ensures (a * 0x40 + b) / 0x40 == a && (a * 0x40 + b) % 0x40 == b
  {
  }

  lemma ThreeDigits(a: nat, b: nat, c: nat)
    requires b < 0x40 && c < 0x40
    ensures var v := a * 0x1000 + b * 0x40 + c;
            v / 0x1000 == a && v / 0x40 == a * 0x40 + b && v / 0x40 % 0x40 == b && v % 0x40 == c
  {
    TwoDigits(a * 0x40 + b, c);
    TwoDigits(a, b);
  }

  lemma FourDigits(a: nat, b: nat, c: nat, d: nat)
    requires b < 0x40 && c < 0x40 && d < 0x40
    ensures var v := a * 0x4_0000 + b * 0x1000 + c * 0x40 + d;
            v / 0x4_0000 == a && v / 0x1000 % 0x40 == b && v / 0x40 % 0x40 == c && v % 0x40 == d
  {
    ThreeDigits(a * 0x40 + b, c, d);
    TwoDigits(a, b);
  }

  lemma FirstIsEncoded(s: string)
    requires s != "" && Begins(s, SequenceLength(s[0]))
    ensures IsScalar(FirstValue(s)) && s == Encoded(FirstValue(s)) + s[SequenceLength(s[0])..]
  {
    var n := SequenceLength(s[0]);
    if n == 2 {
      TwoIsEncoded(s);
    } else if n == 3 {
      ThreeIsEncoded(s);
    } else if n == 4 {
      FourIsEncoded(s);
    }
    assert s == s[..n] + s[n..];
  }

  lemma TwoIsEncoded(s: string)
    requires s != "" && SequenceLength(s[0]) == 2 && Begins(s, 2)
    ensures IsScalar(FirstValue(s)) && Encoded(FirstValue(s)) == s[..2]
  {
    var a, b := s[0] as int - 0xc0, s[1] as int - 0x80;
    assert IsContinuation(s[1]);
    TwoDigits(a, b);
  }

  lemma ThreeIsEncoded(s: string)
    requires s != "" && SequenceLength(s[0]) == 3 && Begins(s, 3)
    ensures IsScalar(FirstValue(s)) && Encoded(FirstValue(s)) == s[..3]
  {
    var a, b, c := s[0] as int - 0xe0, s[1] as int - 0x80, s[2] as int - 0x80;
    assert IsContinuation(s[1]) && IsContinuation(s[2]);
    ThreeDigits(a, b, c);
    assert 0x800 <= FirstValue(s) < 0x1_0000;
  }

  lemma FourIsEncoded(s: string)
    requires s != "" && SequenceLength(s[0]) == 4 && Begins(s, 4)
    ensures IsScalar(FirstValue(s)) && Encoded(FirstValue(s)) == s[..4]
  {
    var a, b, c, d := s[0] as int - 0xf0, s[1] as int - 0x80, s[2] as int - 0x80, s[3] as int - 0x80;
    assert IsContinuation(s[1]) && IsContinuation(s[2]) && IsContinuation(s[3]);
    FourDigits(a, b, c, d);
    assert 0x1_0000 <= FirstValue(s) < 0x11_0000;
  }

  lemma {:induction false} Decoded(s: string) returns (cs: seq<nat>)
    requires IsUtf8(s)
    ensures AllScalar(cs) && EncodedText(cs) == s
    decreases |s|
  {
    cs := [];
    if s != "" {
      FirstIsEncoded(s);
      var rest := Decoded(s[SequenceLength(s[0])..]);
      cs := [FirstValue(s)] + rest;
      assert cs[1..] == rest;
    }
  }

  lemma {:induction false} EncodedIsUtf8(cs: seq<nat>)
    requires AllScalar(cs)
    ensures IsUtf8(EncodedText(cs))
    decreases |cs|
  {
    if cs != [] {
      EncodedIsUtf8(cs[1..]);
      EncodedBegins(cs[0], EncodedText(cs[1..]));
    }
  }

  /** A text is UTF-8 exactly if it is the encoding of some scalar values. */
  lemma IsUtf8Exactly(s: string)
    ensures IsUtf8(s) <==> exists cs :: AllScalar(cs) && EncodedText(cs) == s
  {
    if IsUtf8(s) {
      var cs := Decoded(s);
    }
    if cs :| AllScalar(cs) && EncodedText(cs) == s {
      EncodedIsUtf8(cs);
    }
  }
}
