/** The "contribute this camera" link: percent-encoding of query components (RFC 3986,
    sections 2.1 and 2.3), the decoder of the database-backup job, and the query string
    built from them.

    A byte is written as a character below 256. */
module ContributeUrl {
  import opened Options
  import opened Splitting

  predicate IsBytes(s: string) {
    forall i :: 0 <= i < |s| ==> s[i] as int < 256
  }

  predicate Unreserved(b: char) {
    'A' <= b <= 'Z' || 'a' <= b <= 'z' || '0' <= b <= '9' || b == '-' || b == '_' || b == '.' || b == '~'
  }

  function HexDigit(n: nat): char
    requires n < 16
  {
    if n < 10 then ('0' as int + n) as char else ('A' as int + n - 10) as char
  }

  /** The value of a hexadecimal digit of either case. */
  function HexValue(b: char): Option<nat> {
    if '0' <= b <= '9' then Some(b as int - '0' as int)
    else if 'a' <= b <= 'f' then Some(b as int - 'a' as int + 10)
    else if 'A' <= b <= 'F' then Some(b as int - 'A' as int + 10)
    else None
  }

  function EncodeByte(b: char): string
    requires b as int < 256
  {
    if Unreserved(b) then [b]
    else if b == ' ' then "%20"
    else ['%', HexDigit(b as int / 16), HexDigit(b as int % 16)]
  }

  function Encode(s: string): string
    requires IsBytes(s)
  {
    if s == [] then [] else EncodeByte(s[0]) + Encode(s[1..])
  }

  method ComputeEncode(s: string) returns (out: string)
    requires IsBytes(s)
    ensures out == Encode(s)
  {
    out := [];
    for i := 0 to |s|
      invariant out + Encode(s[i..]) == Encode(s)
    {
      assert s[i..][1..] == s[i + 1..];
      out := out + EncodeByte(s[i]);
    }
  }

  /** A well-formed escape stands at the front of `s`. */
  predicate EscapeAhead(s: string) {
    |s| > 2 && s[0] == '%' && HexValue(s[1]).Some? && HexValue(s[2]).Some?
  }

  function EscapedByte(s: string): char
    requires EscapeAhead(s)
  {
    (HexValue(s[1]).value * 16 + HexValue(s[2]).value) as char
  }

  function Decode(s: string): string {
    if s == [] then []
    else if EscapeAhead(s) then [EscapedByte(s)] + Decode(s[3..])
    else [s[0]] + Decode(s[1..])
  }

  lemma DecodeStep(s: string, i: nat)
    requires i < |s|
    ensures EscapeAhead(s[i..]) <==> s[i] == '%' && i + 2 < |s| && HexValue(s[i + 1]).Some? && HexValue(s[i + 2]).Some?
    ensures !EscapeAhead(s[i..]) ==> Decode(s[i..]) == [s[i]] + Decode(s[i + 1..])
    ensures EscapeAhead(s[i..]) ==>
              Decode(s[i..]) == [(HexValue(s[i + 1]).value * 16 + HexValue(s[i + 2]).value) as char] + Decode(s[i + 3..])
  {
    assert s[i..][1..] == s[i + 1..];
    if i + 2 < |s| {
      assert s[i..][3..] == s[i + 3..];
    }
  }

  lemma MoveOver(out: string, c: char, rest: string)
    ensures (out + [c]) + rest == out + ([c] + rest)
  {
  }

  method ComputeDecode(s: string) returns (out: string)
    ensures out == Decode(s)
  {
    out := "";
    var i := 0;
    while i < |s|
      invariant 0 <= i <= |s|
      invariant out + Decode(s[i..]) == Decode(s)
    {
      DecodeStep(s, i);
      if s[i] == '%' && i + 2 < |s| {
        var hi, lo := HexValue(s[i + 1]), HexValue(s[i + 2]);
        if hi.Some? && lo.Some? {
          MoveOver(out, (hi.value * 16 + lo.value) as char, Decode(s[i + 3..]));
          out := out + [(hi.value * 16 + lo.value) as char];
          i := i + 3;
          continue;
        }
      }
      MoveOver(out, s[i], Decode(s[i + 1..]));
      out := out + [s[i]];
      i := i + 1;
    }
  }

  /** Text is left alone exactly when it holds no well-formed escape: malformed ones
      are literal text. */
  lemma {:induction false} DecodeKeepsMalformed(s: string)
    ensures |Decode(s)| <= |s|
    ensures Decode(s) == s <==> forall i :: 0 <= i < |s| ==> !EscapeAhead(s[i..])
    decreases |s|
  {
    if s != [] {
      DecodeKeepsMalformed(s[1..]);
      assert s[0..] == s;
      assert forall i :: 0 <= i < |s[1..]| ==> s[1..][i..] == s[i + 1..];
      if EscapeAhead(s) {
        DecodeKeepsMalformed(s[3..]);
        assert |Decode(s)| < |s|;
      } else {
        assert s == [s[0]] + s[1..];
        if Decode(s[1..]) != s[1..] {
          var i :| 0 <= i < |s[1..]| && EscapeAhead(s[1..][i..]);
          assert EscapeAhead(s[i + 1..]);
        }
        if Decode(s[1..]) == s[1..] {
          forall i | 0 <= i < |s|
            ensures !EscapeAhead(s[i..])
          {
            if i > 0 {
              assert s[1..][i - 1..] == s[i..];
            }
          }
        }
      }
    }
  }

  lemma DecodeEncodedByte(b: char, rest: string)
    requires b as int < 256
    ensures Decode(EncodeByte(b) + rest) == [b] + Decode(rest)
  {
    var e := EncodeByte(b);
    assert (e + rest)[|e|..] == rest;
    if !Unreserved(b) {
      assert EscapeAhead(e + rest);
    }
  }

  /** Decoding undoes encoding, for every byte string. */
  lemma {:induction false} DecodeEncode(s: string)
    requires IsBytes(s)
    ensures Decode(Encode(s)) == s
    decreases |s|
  {
    if s != [] {
      DecodeEncodedByte(s[0], Encode(s[1..]));
      DecodeEncode(s[1..]);
    }
  }

  const UPPER := "0123456789ABCDEF"
  const LOWER := "0123456789abcdef"

  /** A letter, a digit or one of `-._~` is sent as it is, every other byte as `%` and its two
      hexadecimal digits in capitals. */
  lemma EncodesExactly(b: char)
    requires b as int < 256
    ensures 'A' <= b <= 'Z' || 'a' <= b <= 'z' || '0' <= b <= '9' || b in "-._~" ==> EncodeByte(b) == [b]
    ensures !('A' <= b <= 'Z' || 'a' <= b <= 'z' || '0' <= b <= '9' || b in "-._~") ==>
      exists h: nat, l: nat :: h < 16 && l < 16 && b as int == 16 * h + l && EncodeByte(b) == ['%', UPPER[h], UPPER[l]]
  {
    var h, l := b as int / 16, b as int % 16;
    assert HexDigit(h) == UPPER[h] && HexDigit(l) == UPPER[l];
  }

  /** `c` is the hexadecimal digit `n`, of either case. */
  predicate IsDigitOf(c: char, n: nat) {
    n < 16 && (c == UPPER[n] || c == LOWER[n])
  }

  lemma DigitReads(c: char, n: nat)
    requires IsDigitOf(c, n)
    ensures HexValue(c) == Some(n)
  {
    assert UPPER[n] == (if n < 10 then ('0' as int + n) as char else ('A' as int + n - 10) as char);
    assert LOWER[n] == (if n < 10 then ('0' as int + n) as char else ('a' as int + n - 10) as char);
  }

  predicate IsHexDigit(c: char) {
    c in UPPER || c in LOWER
  }

  lemma OnlyDigitsAreRead(c: char)
    requires HexValue(c).Some?
    ensures IsHexDigit(c)
  {
    var v := HexValue(c).value;
    assert UPPER[v] == c || LOWER[v] == c;
  }

  /** `%` and two hexadecimal digits of either case decode to their byte. */
  lemma EscapeDecodes(s: string, h: nat, l: nat)
    requires |s| > 2 && s[0] == '%' && IsDigitOf(s[1], h) && IsDigitOf(s[2], l)
    ensures h < 16 && l < 16 && Decode(s) == [(16 * h + l) as char] + Decode(s[3..])
  {
    DigitReads(s[1], h);
    DigitReads(s[2], l);
    EscapeStep(s, h, l);
  }

  lemma EscapeStep(s: string, h: nat, l: nat)
    requires |s| > 2 && s[0] == '%' && HexValue(s[1]) == Some(h) && HexValue(s[2]) == Some(l)
    ensures h < 16 && l < 16 && Decode(s) == [(16 * h + l) as char] + Decode(s[3..])
  {
    assert EscapeAhead(s);
  }

  /** Any other character in front stays, a `%` without two such digits included. */
  lemma OtherDecodes(s: string)
    requires s != "" && (s[0] != '%' || |s| <= 2 || !IsHexDigit(s[1]) || !IsHexDigit(s[2]))
    ensures Decode(s) == [s[0]] + Decode(s[1..])
  {
    if EscapeAhead(s) {
      OnlyDigitsAreRead(s[1]);
      OnlyDigitsAreRead(s[2]);
    }
  }

  lemma {:induction false} EncodedAlphabet(s: string)
    requires IsBytes(s)
    ensures forall b :: b in Encode(s) ==> Unreserved(b) || b == '%'
    decreases |s|
  {
    if s != [] {
      EncodedAlphabet(s[1..]);
    }
  }

  // ---- query strings ----------------------------------------------------------

  type Field = (string, string)

  /** `k=v` with the value percent-decoded; a component without `=` has an empty value. */
  function ParseField(s: string): Field {
    var kv := SplitOnce(s, '=');
    (kv.0, if kv.1.Some? then Decode(kv.1.value) else [])
  }

  function ParseFields(s: string): seq<Field>
    decreases |s|
  {
    var p := SplitOnce(s, '&');
    SplitOnceShortens(s, '&');
    [ParseField(p.0)] + if p.1.Some? then ParseFields(p.1.value) else []
  }

  /** The fields of the query component of a URL. */
  function ParseQuery(url: string): seq<Field> {
    var p := SplitOnce(url, '?');
    if p.1.Some? then ParseFields(p.1.value) else []
  }

  /** A value that can be sent under a key that needs no encoding itself. */
  ghost predicate Sendable(f: Field) {
    '&' !in f.0 && '=' !in f.0 && IsBytes(f.1)
  }

  ghost predicate AllSendable(fs: seq<Field>) {
    forall i :: 0 <= i < |fs| ==> Sendable(fs[i])
  }

  function RenderField(f: Field): string
    requires Sendable(f)
  {
    f.0 + ("=" + Encode(f.1))
  }

  /** Every field preceded by `&`. */
  function RenderFields(fs: seq<Field>): string
    requires AllSendable(fs)
  {
    if fs == [] then "" else "&" + (RenderField(fs[0]) + RenderFields(fs[1..]))
  }

  lemma ParseRenderedField(f: Field)
    requires Sendable(f)
    ensures ParseField(RenderField(f)) == f && '&' !in RenderField(f)
  {
    var value := Encode(f.1);
    SplitOnceAt(f.0, '=', value);
    DecodeEncode(f.1);
    EncodedAlphabet(f.1);
    assert '&' !in value;
  }

  lemma ParseNextField(first: string, rest: string)
    requires '&' !in first
    ensures ParseFields(first) == [ParseField(first)]
    ensures ParseFields(first + ("&" + rest)) == [ParseField(first)] + ParseFields(rest)
  {
    SplitOnceAt(first, '&', rest);
  }

  lemma {:induction false} ParseRenderedFields(first: string, fs: seq<Field>)
    requires '&' !in first
    requires AllSendable(fs)
    ensures ParseFields(first + RenderFields(fs)) == [ParseField(first)] + fs
    decreases |fs|
  {
    if fs == [] {
      assert first + RenderFields(fs) == first;
      ParseNextField(first, "");
    } else {
      ParseRenderedField(fs[0]);
      ParseRenderedFields(RenderField(fs[0]), fs[1..]);
      calc {
        ParseFields(first + RenderFields(fs));
        { ParseNextField(first, RenderField(fs[0]) + RenderFields(fs[1..])); }
        [ParseField(first)] + ParseFields(RenderField(fs[0]) + RenderFields(fs[1..]));
        [ParseField(first)] + ([fs[0]] + fs[1..]);
        { assert [fs[0]] + fs[1..] == fs; }
        [ParseField(first)] + fs;
      }
    }
  }

  lemma Reassociates(a: string, b: string, c: string, d: string)
    ensures a + (b + (c + d)) == a + (b + c) + d
  {
  }

  lemma {:induction false} RenderAppends(fs: seq<Field>, gs: seq<Field>)
    requires AllSendable(fs) && AllSendable(gs)
    ensures AllSendable(fs + gs)
    ensures RenderFields(fs + gs) == RenderFields(fs) + RenderFields(gs)
    decreases |fs|
  {
    if fs == [] {
      assert fs + gs == gs;
    } else {
      RenderAppends(fs[1..], gs);
      assert (fs + gs)[0] == fs[0] && (fs + gs)[1..] == fs[1..] + gs;
      Reassociates("&", RenderField(fs[0]), RenderFields(fs[1..]), RenderFields(gs));
    }
  }

  // ---- the link ---------------------------------------------------------------

  const PAGE := "https://github.com/" + "badbread/crumbvms/" + "issues/new"
  const TEMPLATE := "template" + ("=" + "camera-report.yml")

  predicate Given(s: Option<string>) {
    s.Some? && s.value != ""
  }

  ghost predicate Acceptable(s: Option<string>) {
    s.Some? ==> IsBytes(s.value)
  }

  function FieldIfGiven(key: string, s: Option<string>): seq<Field> {
    if Given(s) then [(key, s.value)] else []
  }

  /** The issue title names whatever identity is known. */
  function Title(make: Option<string>, model: Option<string>): Option<string> {
    if Given(make) && Given(model) then Some("[camera] " + make.value + " " + model.value)
    else if Given(make) then Some("[camera] " + make.value)
    else if Given(model) then Some("[camera] " + model.value)
    else None
  }

  function LinkFields(make: Option<string>, model: Option<string>, firmware: Option<string>): seq<Field> {
    FieldIfGiven("make", make) + FieldIfGiven("model", model)
    + FieldIfGiven("firmware", firmware) + FieldIfGiven("title", Title(make, model))
  }

  function Word(s: Option<string>): string {
    if s.Some? && s.value != "" then " " + s.value else ""
  }

  lemma TitleReads(make: Option<string>, model: Option<string>)
    ensures Given(Title(make, model)) <==> Word(make) + Word(model) != ""
    ensures Given(Title(make, model)) ==> Title(make, model).value == "[camera]" + (Word(make) + Word(model))
  {
    if Given(make) && Given(model) {
      assert "[camera] " + make.value + " " + model.value == "[camera]" + ((" " + make.value) + (" " + model.value));
    } else if Given(make) {
      assert "[camera] " + make.value == "[camera]" + ((" " + make.value) + "");
    } else if Given(model) {
      assert "[camera] " + model.value == "[camera]" + ("" + (" " + model.value));
    }
  }

  lemma InField(f: Field, key: string, s: Option<string>)
    ensures f in FieldIfGiven(key, s) <==> f.0 == key && s == Some(f.1) && f.1 != ""
  {
  }

  ghost predicate KeysDiffer(fs: seq<Field>) {
    forall i, j :: 0 <= i < j < |fs| ==> fs[i].0 != fs[j].0
  }

  lemma KeysStayDifferent(fs: seq<Field>, key: string, s: Option<string>)
    requires KeysDiffer(fs) && forall f :: f in fs ==> f.0 != key
    ensures KeysDiffer(fs + FieldIfGiven(key, s))
    ensures forall f :: f in fs + FieldIfGiven(key, s) ==> f.0 == key || f in fs
  {
  }

  lemma FourKeys()
    ensures "make" != "model" && "make" != "firmware" && "make" != "title"
    ensures "model" != "firmware" && "model" != "title" && "firmware" != "title"
  {
    assert |"make"| == 4 && |"model"| == 5 && |"firmware"| == 8 && |"title"| == 5;
    assert "model"[0] != "title"[0];
  }

  /** Each part of the identity that is known and not empty is sent once under its key, and so is
      a title with the known ones of make and model, in this order; nothing else is sent. */
  lemma LinkFieldsExactly(make: Option<string>, model: Option<string>, firmware: Option<string>, f: Field)
    ensures f in LinkFields(make, model, firmware) <==>
      || (f.0 == "make" && make == Some(f.1) && f.1 != "")
      || (f.0 == "model" && model == Some(f.1) && f.1 != "")
      || (f.0 == "firmware" && firmware == Some(f.1) && f.1 != "")
      || (f.0 == "title" && Word(make) + Word(model) != "" && f.1 == "[camera]" + (Word(make) + Word(model)))
    ensures KeysDiffer(LinkFields(make, model, firmware))
  {
    var title := Title(make, model);
    TitleReads(make, model);
    InField(f, "make", make);
    InField(f, "model", model);
    InField(f, "firmware", firmware);
    InField(f, "title", title);
    FourKeys();
    var fs := FieldIfGiven("make", make);
    KeysStayDifferent(fs, "model", model);
    KeysStayDifferent(fs + FieldIfGiven("model", model), "firmware", firmware);
    KeysStayDifferent(fs + FieldIfGiven("model", model) + FieldIfGiven("firmware", firmware), "title", title);
  }

  lemma PlainTextDecodes(s: string)
    requires '%' !in s
    ensures Decode(s) == s
  {
    DecodeKeepsMalformed(s);
  }

  lemma TemplateParses()
    ensures '&' !in TEMPLATE
    ensures ParseField(TEMPLATE) == ("template", "camera-report.yml")
  {
    var k, v := "template", "camera-report.yml";
    assert '=' !in k && '%' !in v && '&' !in k && '&' !in v;
    SplitOnceAt(k, '=', v);
    PlainTextDecodes(v);
  }

  lemma LinkParses(fs: seq<Field>)
    requires AllSendable(fs)
    ensures ParseQuery(PAGE + ("?" + (TEMPLATE + RenderFields(fs)))) == [("template", "camera-report.yml")] + fs
  {
    TemplateParses();
    SplitOnceAt(PAGE, '?', TEMPLATE + RenderFields(fs));
    ParseRenderedFields(TEMPLATE, fs);
  }

  lemma TitleIsBytes(make: Option<string>, model: Option<string>)
    requires Acceptable(make) && Acceptable(model)
    ensures Acceptable(Title(make, model))
  {
  }

  lemma FieldsSendable(make: Option<string>, model: Option<string>, firmware: Option<string>)
    requires Acceptable(make) && Acceptable(model) && Acceptable(firmware)
    ensures AllSendable(FieldIfGiven("make", make))
    ensures AllSendable(FieldIfGiven("model", model))
    ensures AllSendable(FieldIfGiven("firmware", firmware))
    ensures AllSendable(FieldIfGiven("title", Title(make, model)))
  {
    TitleIsBytes(make, model);
  }

  method PushField(url: string, key: string, v: Option<string>) returns (r: string)
    requires AllSendable(FieldIfGiven(key, v))
    ensures r == url + RenderFields(FieldIfGiven(key, v))
  {
    r := url;
    if Given(v) {
      assert Sendable(FieldIfGiven(key, v)[0]);
      var e := ComputeEncode(v.value);
      r := url + ("&" + (key + ("=" + e)));
      assert RenderFields(FieldIfGiven(key, v)) == "&" + (key + ("=" + e));
    }
  }

  /** Reading the link back gives exactly the identity that went in. */
  method ContributeLink(make: Option<string>, model: Option<string>, firmware: Option<string>) returns (url: string)
    requires Acceptable(make) && Acceptable(model) && Acceptable(firmware)
    ensures ParseQuery(url) == [("template", "camera-report.yml")] + LinkFields(make, model, firmware)
  {
    FieldsSendable(make, model, firmware);
    var query := TEMPLATE;
    query := PushField(query, "make", make);
    query := PushField(query, "model", model);
    query := PushField(query, "firmware", firmware);
    query := PushField(query, "title", Title(make, model));
    RenderLinkFields(make, model, firmware);
    LinkParses(LinkFields(make, model, firmware));
    return PAGE + ("?" + query);
  }

  lemma ConcatAssociates<T>(t: seq<T>, a: seq<T>, b: seq<T>, c: seq<T>, d: seq<T>)
    ensures t + (a + b + c + d) == t + a + b + c + d
  {
  }

  lemma RenderLinkFields(make: Option<string>, model: Option<string>, firmware: Option<string>)
    requires AllSendable(FieldIfGiven("make", make)) && AllSendable(FieldIfGiven("model", model))
    requires AllSendable(FieldIfGiven("firmware", firmware)) && AllSendable(FieldIfGiven("title", Title(make, model)))
    ensures AllSendable(LinkFields(make, model, firmware))
    ensures TEMPLATE + RenderFields(LinkFields(make, model, firmware))
         == TEMPLATE + RenderFields(FieldIfGiven("make", make)) + RenderFields(FieldIfGiven("model", model))
            + RenderFields(FieldIfGiven("firmware", firmware)) + RenderFields(FieldIfGiven("title", Title(make, model)))
  {
    var a, b := FieldIfGiven("make", make), FieldIfGiven("model", model);
    var c, d := FieldIfGiven("firmware", firmware), FieldIfGiven("title", Title(make, model));
    RenderAppends(a, b);
    RenderAppends(a + b, c);
    RenderAppends(a + b + c, d);
    ConcatAssociates(TEMPLATE, RenderFields(a), RenderFields(b), RenderFields(c), RenderFields(d));
  }
}
