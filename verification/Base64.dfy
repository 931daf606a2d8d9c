// The strict base64 decoder of the native runtime, with the encoder of section 4
// of RFC 4648 as its partner.
module Base64 {
  import opened Octets
  import opened Arithmetic

  const MAXIMUM_EVENT_BYTES := 7 * 1024 * 1024

  datatype Decoded = Invalid | Bytes(value: seq<Byte>)

  // The value of one alphabet character, or -1.
  function Value(c: char): (v: int)
    ensures -1 <= v < 64
  {
    if 'A' <= c <= 'Z' then c as int - 'A' as int
    else if 'a' <= c <= 'z' then c as int - 'a' as int + 26
    else if '0' <= c <= '9' then c as int - '0' as int + 52
    else if c == '+' then 62
    else if c == '/' then 63
    else -1
  }

  // Table 1 of RFC 4648: the character of a six-bit value.
  function Alphabet(v: int): (c: char)
    requires 0 <= v < 64
    ensures Value(c) == v
  {
    if v < 26 then ('A' as int + v) as char
    else if v < 52 then ('a' as int + (v - 26)) as char
    else if v < 62 then ('0' as int + (v - 52)) as char
    else if v == 62 then '+'
    else '/'
  }

  lemma {:induction false} AlphabetIsNotPad(v: int)
    requires 0 <= v < 64
    ensures Alphabet(v) != '='
  {
  }

  lemma {:induction false} AlphabetOfValue(c: char)
    requires Value(c) >= 0
    ensures Alphabet(Value(c)) == c
  {
  }

  type Sextet = x: int | 0 <= x < 64

  datatype Word = Word(a: Sextet, b: Sextet, c: Sextet, d: Sextet)
  datatype Triple = Triple(b0: Byte, b1: Byte, b2: Byte)

  // Section 4 of RFC 4648: 24 input bits are read as four groups of 6 bits.
  function Split(t: Triple): Word {
    Word(t.b0 / 4, t.b0 % 4 * 16 + t.b1 / 16, t.b1 % 16 * 4 + t.b2 / 64, t.b2 % 64)
  }

  // The shifts and masks of the decoder. The four fields of the accumulated word
  // do not overlap, so joining them is a sum; shifting right and masking to eight
  // bits is a division and a remainder.
  function Join(w: Word): Triple {
    var bits := w.a * 262144 + w.b * 4096 + w.c * 64 + w.d;
    Triple(bits / 65536 % 256, bits / 256 % 256, bits % 256)
  }

  // One group of three bytes, or the one or two bytes that close the input,
  // becomes four characters.
  function EncodeGroup(g: seq<Byte>): (s: string)
    requires 1 <= |g| <= 3
    ensures |s| == 4
  {
    var w := Split(Triple(g[0], if |g| > 1 then g[1] else 0, if |g| > 2 then g[2] else 0));
    [Alphabet(w.a),
     Alphabet(w.b),
     if |g| > 1 then Alphabet(w.c) else '=',
     if |g| > 2 then Alphabet(w.d) else '=']
  }

  function Encode(bytes: seq<Byte>): string {
    if bytes == [] then ""
    else if |bytes| <= 3 then EncodeGroup(bytes)
    else EncodeGroup(bytes[..3]) + Encode(bytes[3..])
  }

  // The body of the decoding loop for one group of four characters.
  function DecodeGroup(g: string, finalGroup: bool): Decoded
    requires |g| == 4
  {
    var pad2, pad3 := g[2] == '=', g[3] == '=';
    if pad2 && !pad3 then Invalid
    else if (pad2 || pad3) && !finalGroup then Invalid
    else
      var a, b := Value(g[0]), Value(g[1]);
      var c, d := if pad2 then 0 else Value(g[2]), if pad3 then 0 else Value(g[3]);
      if a < 0 || b < 0 || c < 0 || d < 0 then Invalid
      else if (pad2 && b % 16 != 0) || (pad3 && !pad2 && c % 4 != 0) then Invalid
      else
        var t := Join(Word(a, b, c, d));
        Bytes(if pad2 then [t.b0] else if pad3 then [t.b0, t.b1] else [t.b0, t.b1, t.b2])
  }

  function DecodeGroups(s: string): Decoded
    requires |s| % 4 == 0
  {
    if s == [] then Bytes([])
    else
      var head := DecodeGroup(s[..4], |s| == 4);
      var tail := DecodeGroups(s[4..]);
      if head.Invalid? || tail.Invalid? then Invalid else Bytes(head.value + tail.value)
  }

  // The three bytes of the word, from the two parts of b and of c.
  lemma {:induction false} JoinParts(a: int, bh: int, bl: int, ch: int, cl: int, d: int)
    requires 0 <= a < 64 && 0 <= bh < 4 && 0 <= bl < 16 && 0 <= ch < 16 && 0 <= cl < 4 && 0 <= d < 64
    ensures Join(Word(a, bh * 16 + bl, ch * 4 + cl, d)) == Triple(a * 4 + bh, bl * 16 + ch, cl * 64 + d)
  {
    var bits := a * 262144 + (bh * 16 + bl) * 4096 + (ch * 4 + cl) * 64 + d;
    Division(bits, a * 4 + bh, (bl * 16 + ch) * 256 + cl * 64 + d, 65536);
    Division(bits, (a * 4 + bh) * 256 + bl * 16 + ch, cl * 64 + d, 256);
    Division((a * 4 + bh) * 256 + bl * 16 + ch, a * 4 + bh, bl * 16 + ch, 256);
  }

  lemma {:induction false} JoinSplit(t: Triple)
    ensures Join(Split(t)) == t
  {
    hide Join;
    JoinParts(t.b0 / 4, t.b0 % 4, t.b1 / 16, t.b1 % 16, t.b2 / 64, t.b2 % 64);
  }

  lemma {:induction false} SplitJoin(w: Word)
    ensures Split(Join(w)) == w
    ensures w.b % 16 == 0 && w.c == 0 && w.d == 0 ==> Join(w).b1 == 0 && Join(w).b2 == 0
    ensures w.c % 4 == 0 && w.d == 0 ==> Join(w).b2 == 0
  {
    hide Join;
    var bh, bl, ch, cl := w.b / 16, w.b % 16, w.c / 4, w.c % 4;
    JoinParts(w.a, bh, bl, ch, cl, w.d);
    Division(w.a * 4 + bh, w.a, bh, 4);
    Division(bl * 16 + ch, bl, ch, 16);
    Division(cl * 64 + w.d, cl, w.d, 64);
  }

  // A closing group leaves zero in the bits that its bytes do not fill
  // (section 3.5 of RFC 4648).
  lemma {:induction false} SplitShort(t: Triple)
    ensures t.b1 == 0 ==> Split(t).b % 16 == 0
    ensures t.b2 == 0 ==> Split(t).c % 4 == 0
    ensures t.b1 == 0 && t.b2 == 0 ==> Split(t).c == 0
    ensures t.b2 == 0 ==> Split(t).d == 0
  {
    Division(Split(t).b, t.b0 % 4, t.b1 / 16, 16);
    Division(Split(t).c, t.b1 % 16, t.b2 / 64, 4);
  }

  // A group that decodes is the encoding of its bytes, and a group of one or two
  // bytes can only come last.
  lemma {:induction false} DecodeGroupSound(g: string, finalGroup: bool)
    requires |g| == 4
    ensures var r := DecodeGroup(g, finalGroup);
            r.Bytes? ==> 1 <= |r.value| <= 3 && (|r.value| < 3 ==> finalGroup) && g == EncodeGroup(r.value)
  {
    var r := DecodeGroup(g, finalGroup);
    if r.Bytes? {
      var pad2, pad3 := g[2] == '=', g[3] == '=';
      var w := Word(Value(g[0]), Value(g[1]), if pad2 then 0 else Value(g[2]), if pad3 then 0 else Value(g[3]));
      SplitJoin(w);
      AlphabetOfValue(g[0]);
      AlphabetOfValue(g[1]);
      if !pad2 { AlphabetOfValue(g[2]); }
      if !pad3 { AlphabetOfValue(g[3]); }
      assert g == [g[0], g[1], g[2], g[3]];
    }
  }

  lemma {:induction false} DecodeGroupComplete(bytes: seq<Byte>, finalGroup: bool)
    requires 1 <= |bytes| <= 3 && (|bytes| < 3 ==> finalGroup)
    ensures DecodeGroup(EncodeGroup(bytes), finalGroup) == Bytes(bytes)
  {
    var t := Triple(bytes[0], if |bytes| > 1 then bytes[1] else 0, if |bytes| > 2 then bytes[2] else 0);
    JoinSplit(t);
    SplitShort(t);
    AlphabetIsNotPad(Split(t).c);
    AlphabetIsNotPad(Split(t).d);
  }

  lemma {:induction false} EncodeNonEmpty(bytes: seq<Byte>)
    requires bytes != []
    ensures Encode(bytes) != ""
  {
  }

  // Whatever decodes is the canonical encoding of the bytes it decodes to.
  lemma {:induction false} DecodeSound(s: string)
    requires |s| % 4 == 0
    ensures DecodeGroups(s).Bytes? ==> Encode(DecodeGroups(s).value) == s
    ensures DecodeGroups(s).Bytes? && s != "" ==> DecodeGroups(s).value != []
  {
    hide DecodeGroup, EncodeGroup;
    if s != "" && DecodeGroups(s).Bytes? {
      DecodeGroupSound(s[..4], |s| == 4);
      DecodeSound(s[4..]);
      var head, tail := DecodeGroup(s[..4], |s| == 4).value, DecodeGroups(s[4..]).value;
      if |s| == 4 {
        assert s[..4] == s && head + tail == head;
      } else {
        assert (head + tail)[..3] == head && (head + tail)[3..] == tail;
        assert s == s[..4] + s[4..];
      }
    }
  }

  lemma {:induction false} DecodeGroupsStep(group: string, rest: string)
    requires |group| == 4 && |rest| % 4 == 0
    ensures |group + rest| % 4 == 0
    ensures var head, tail := DecodeGroup(group, rest == ""), DecodeGroups(rest);
            DecodeGroups(group + rest)
            == if head.Invalid? || tail.Invalid? then Invalid else Bytes(head.value + tail.value)
  {
    assert (group + rest)[..4] == group && (group + rest)[4..] == rest;
  }

  lemma {:induction false} DecodeComplete(bytes: seq<Byte>)
    ensures |Encode(bytes)| % 4 == 0
    ensures DecodeGroups(Encode(bytes)) == Bytes(bytes)
  {
    hide DecodeGroup, EncodeGroup;
    if bytes == [] {
    } else if |bytes| <= 3 {
      DecodeGroupComplete(bytes, true);
      DecodeGroupsStep(Encode(bytes), "");
      assert Encode(bytes) + "" == Encode(bytes);
    } else {
      DecodeGroupComplete(bytes[..3], false);
      DecodeComplete(bytes[3..]);
      EncodeNonEmpty(bytes[3..]);
      DecodeGroupsStep(EncodeGroup(bytes[..3]), Encode(bytes[3..]));
      assert bytes[..3] + bytes[3..] == bytes;
    }
  }

  lemma {:induction false} DecodeGroupsIsInverse(s: string, bytes: seq<Byte>)
    requires |s| % 4 == 0
    ensures DecodeGroups(s) == Bytes(bytes) <==> s == Encode(bytes)
  {
    DecodeSound(s);
    DecodeComplete(bytes);
  }

  function Prepend(bytes: seq<Byte>, rest: Decoded): Decoded {
    if rest.Invalid? then Invalid else Bytes(bytes + rest.value)
  }

  lemma {:induction false} DecodeGroupsAt(input: string, index: nat, output: seq<Byte>)
    requires index < |input| && (|input| - index) % 4 == 0
    ensures var group := DecodeGroup(input[index..index + 4], index + 4 == |input|);
            Prepend(output, DecodeGroups(input[index..]))
            == if group.Invalid? then Invalid
               else Prepend(output + group.value, DecodeGroups(input[index + 4..]))
  {
    hide DecodeGroup, DecodeGroups;
    var head, tail := input[index..index + 4], input[index + 4..];
    HeadAndTail(input, index);
    DecodeGroupsStep(head, tail);
    PrependMore(output, DecodeGroup(head, tail == ""), DecodeGroups(tail));
  }

  lemma {:induction false} HeadAndTail(input: string, index: nat)
    requires index + 4 <= |input|
    ensures input[index..] == input[index..index + 4] + input[index + 4..]
    ensures input[index + 4..] == "" <==> index + 4 == |input|
  {
  }

  lemma {:induction false} PrependMore(output: seq<Byte>, group: Decoded, rest: Decoded)
    ensures Prepend(output, if group.Invalid? || rest.Invalid? then Invalid else Bytes(group.value + rest.value))
         == if group.Invalid? then Invalid else Prepend(output + group.value, rest)
  {
    if group.Bytes? && rest.Bytes? {
      assert output + (group.value + rest.value) == output + group.value + rest.value;
    }
  }

  // The loop itself, which a length check guards.
  method DecodeAllGroups(input: string) returns (r: Decoded)
    requires |input| % 4 == 0
    ensures r == DecodeGroups(input)
  {
    hide DecodeGroup, Value;
    var output: seq<Byte> := [];
    var index := 0;
    assert input[0..] == input;
    while index < |input|
      invariant 0 <= index <= |input| && (|input| - index) % 4 == 0
      invariant DecodeGroups(input) == Prepend(output, DecodeGroups(input[index..]))
    {
      DecodeGroupsAt(input, index, output);
      var group := DecodeGroup(input[index..index + 4], index + 4 == |input|);
      if group.Invalid? {
        return Invalid;
      }
      output := output + group.value;
      index := index + 4;
    }
    return Bytes(output);
  }

  // Decoding succeeds with `bytes` exactly when the input is the canonical
  // encoding of `bytes` and is within the event limit.
  method DecodeBase64(input: string) returns (r: Decoded)
    ensures forall bytes :: r == Bytes(bytes) <==> input == Encode(bytes) && |input| <= 7340032
  {
    forall bytes: seq<Byte> ensures |Encode(bytes)| % 4 == 0 {
      DecodeComplete(bytes);
    }
    if |input| > MAXIMUM_EVENT_BYTES || |input| % 4 != 0 {
      return Invalid;
    }
    forall bytes ensures DecodeGroups(input) == Bytes(bytes) <==> input == Encode(bytes) {
      DecodeGroupsIsInverse(input, bytes);
    }
    r := DecodeAllGroups(input);
  }

  // No two inputs decode alike, and decoding undoes encoding.
  lemma {:induction false} NoTwoInputsDecodeAlike(s: string, t: string)
    requires |s| % 4 == 0 && |t| % 4 == 0
    requires DecodeGroups(s).Bytes? && DecodeGroups(s) == DecodeGroups(t)
    ensures s == t
  {
    DecodeSound(s);
    DecodeSound(t);
  }
}
