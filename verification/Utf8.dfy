// The strict UTF-8 coding of section 3 of RFC 3629: no overlong forms, no surrogates,
// nothing above 0x10FFFF.
module Utf8 {
  import opened Octets
  import opened Wrappers

  datatype First = First(c: char, size: nat)

  function EncodeChar(c: char): seq<Byte> {
    var n := c as int;
    if n < 0x80 then [n]
    else if n < 0x800 then [0xC0 + n / 64, 0x80 + n % 64]
    else if n < 0x10000 then [0xE0 + n / 4096, 0x80 + n / 64 % 64, 0x80 + n % 64]
    else [0xF0 + n / 262144, 0x80 + n / 4096 % 64, 0x80 + n / 64 % 64, 0x80 + n % 64]
  }

  function Encode(text: string): seq<Byte> {
    if text == "" then [] else EncodeChar(text[0]) + Encode(text[1..])
  }

  // The code of a lead and its continuation bytes.
  function Code2(a: int, b: int): int { (a - 0xC0) * 64 + (b - 0x80) }
  function Code3(a: int, b: int, c: int): int { (a - 0xE0) * 4096 + (b - 0x80) * 64 + (c - 0x80) }
  function Code4(a: int, b: int, c: int, d: int): int {
    (a - 0xF0) * 262144 + (b - 0x80) * 4096 + (c - 0x80) * 64 + (d - 0x80)
  }

  predicate Continues(b: Byte) { 0x80 <= b < 0xC0 }

  function Scalar(code: int): Option<char> {
    if 0 <= code < 0xD800 || 0xE000 <= code < 0x110000 then Some(code as char) else None
  }

  function Accept(code: int, least: int, size: nat): Option<First> {
    match Scalar(code)
    case Some(c) => if code >= least then Some(First(c, size)) else None
    case None => None
  }

  function DecodeChar(s: seq<Byte>): Option<First> {
    if s == [] then None
    else if s[0] < 0x80 then Accept(s[0], 0, 1)
    else if s[0] < 0xC0 then None
    else if s[0] < 0xE0 then
      if |s| >= 2 && Continues(s[1]) then Accept(Code2(s[0], s[1]), 0x80, 2) else None
    else if s[0] < 0xF0 then
      if |s| >= 3 && Continues(s[1]) && Continues(s[2]) then
        Accept(Code3(s[0], s[1], s[2]), 0x800, 3)
      else None
    else if s[0] < 0xF8 then
      if |s| >= 4 && Continues(s[1]) && Continues(s[2]) && Continues(s[3]) then
        Accept(Code4(s[0], s[1], s[2], s[3]), 0x10000, 4)
      else None
    else None
  }

  lemma {:induction false} DecodedSize(s: seq<Byte>)
    ensures DecodeChar(s).Some? ==> 0 < DecodeChar(s).value.size <= |s|
  {
  }

  function Decode(s: seq<Byte>): Option<string>
    decreases |s|
  {
    DecodedSize(s);
    if s == [] then Some("")
    else match DecodeChar(s)
      case None => None
      case Some(first) =>
        match Decode(s[first.size..])
        case None => None
        case Some(text) => Some([first.c] + text)
  }

  lemma {:induction false} Digits2(n: nat)
    requires n < 0x800
    ensures Code2(0xC0 + n / 64, 0x80 + n % 64) == n
  {
  }

  lemma {:induction false} Digits3(n: nat)
    requires n < 0x10000
    ensures Code3(0xE0 + n / 4096, 0x80 + n / 64 % 64, 0x80 + n % 64) == n
  {
    assert n / 4096 == n / 64 / 64;
  }

  lemma {:induction false} Digits4(n: nat)
    requires n < 0x110000
    ensures Code4(0xF0 + n / 262144, 0x80 + n / 4096 % 64, 0x80 + n / 64 % 64, 0x80 + n % 64) == n
  {
    assert n / 4096 == n / 64 / 64;
    assert n / 262144 == n / 64 / 64 / 64;
  }

  lemma {:induction false} Digits2Of(a: Byte, b: Byte)
    requires Continues(b)
    ensures Code2(a, b) / 64 == a - 0xC0 && Code2(a, b) % 64 == b - 0x80
  {
  }

  lemma {:induction false} Digits3Of(a: Byte, b: Byte, c: Byte)
    requires Continues(b) && Continues(c)
    ensures Code3(a, b, c) / 4096 == a - 0xE0 && Code3(a, b, c) / 64 % 64 == b - 0x80
    ensures Code3(a, b, c) % 64 == c - 0x80
  {
    var n, x, y := Code3(a, b, c), a as int - 0xE0, b as int - 0x80;
    assert n / 64 == x * 64 + y;
    assert n / 4096 == n / 64 / 64;
  }

  lemma {:induction false} Digits4Of(a: Byte, b: Byte, c: Byte, d: Byte)
    requires Continues(b) && Continues(c) && Continues(d)
    ensures Code4(a, b, c, d) / 262144 == a - 0xF0 && Code4(a, b, c, d) / 4096 % 64 == b - 0x80
    ensures Code4(a, b, c, d) / 64 % 64 == c - 0x80 && Code4(a, b, c, d) % 64 == d - 0x80
  {
    var n, x, y, z := Code4(a, b, c, d), a as int - 0xF0, b as int - 0x80, c as int - 0x80;
    assert n / 64 == x * 4096 + y * 64 + z;
    assert n / 4096 == n / 64 / 64 == x * 64 + y;
    assert n / 262144 == n / 4096 / 64;
  }

  lemma {:induction false} DecodeEncodedChar(c: char, rest: seq<Byte>)
    ensures DecodeChar(EncodeChar(c) + rest) == Some(First(c, |EncodeChar(c)|))
  {
    hide Code2, Code3, Code4;
    var n, s := c as int, EncodeChar(c) + rest;
    if n < 0x80 {
      assert s[0] == n;
    } else if n < 0x800 {
      Digits2(n);
      assert s[0] == 0xC0 + n / 64 && s[1] == 0x80 + n % 64;
    } else if n < 0x10000 {
      Digits3(n);
      assert s[0] == 0xE0 + n / 4096 && s[1] == 0x80 + n / 64 % 64 && s[2] == 0x80 + n % 64;
    } else {
      Digits4(n);
      assert s[0] == 0xF0 + n / 262144 && s[1] == 0x80 + n / 4096 % 64 && s[2] == 0x80 + n / 64 % 64 && s[3] == 0x80 + n % 64;
    }
  }

  lemma {:induction false} EncodeDecodedChar(s: seq<Byte>)
    requires DecodeChar(s).Some?
    ensures DecodeChar(s).value.size <= |s| && EncodeChar(DecodeChar(s).value.c) == s[..DecodeChar(s).value.size]
  {
    hide Code2, Code3, Code4;
    if 0x80 <= s[0] < 0xE0 {
      Digits2Of(s[0], s[1]);
    } else if 0xE0 <= s[0] < 0xF0 {
      Digits3Of(s[0], s[1], s[2]);
    } else if 0xF0 <= s[0] {
      Digits4Of(s[0], s[1], s[2], s[3]);
    }
  }

  // Every text is read back from its bytes.
  lemma {:induction false} DecodeEncoded(text: string)
    ensures Decode(Encode(text)) == Some(text)
  {
    hide DecodeChar, EncodeChar;
    if text != "" {
      DecodeEncoded(text[1..]);
      DecodeEncodedChar(text[0], Encode(text[1..]));
      var s := EncodeChar(text[0]) + Encode(text[1..]);
      DecodedSize(s);
      assert s[|EncodeChar(text[0])|..] == Encode(text[1..]);
      assert text == [text[0]] + text[1..];
      assert Decode(s) == Some(text);
    }
  }

  // Only the coding of a text is accepted.
  lemma {:induction false} EncodeDecoded(s: seq<Byte>)
    requires Decode(s).Some?
    ensures Encode(Decode(s).value) == s
    decreases |s|
  {
    hide DecodeChar, EncodeChar;
    if s != [] {
      DecodedSize(s);
      EncodeDecodedChar(s);
      var size := DecodeChar(s).value.size;
      EncodeDecoded(s[size..]);
      var text := Decode(s).value;
      assert text[1..] == Decode(s[size..]).value;
      assert s == s[..size] + s[size..];
    }
  }
}
