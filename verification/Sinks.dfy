// The bounded sinks that receive the body and the headers of a response chunk by chunk.
module Sinks {
  import opened Wrappers

  // One more than the largest value of a 64-bit size_t.
  const SIZE_RANGE := 0x1_0000_0000_0000_0000
  const MAXIMUM_HEADER_BYTES := 64 * 1024

  type Size = x: int | 0 <= x < SIZE_RANGE

  // A product of two sizes, wrapped around.
  function Times(a: Size, b: Size): Size { a * b % SIZE_RANGE }

  predicate ProductTooLarge(size: Size, count: Size) { count != 0 && size > (SIZE_RANGE - 1) / count }

  // The division tells exactly when the product would wrap around.
  lemma {:induction false} ProductGuard(size: Size, count: Size)
    ensures ProductTooLarge(size, count) <==> size * count >= 18446744073709551616
    ensures !ProductTooLarge(size, count) ==> Times(size, count) == size * count
  {
    if count != 0 {
      var limit := (SIZE_RANGE - 1) / count;
      assert limit * count <= SIZE_RANGE - 1 < (limit + 1) * count;
      if size > limit {
        Monotone(limit + 1, size, count);
      } else {
        Monotone(size, limit, count);
      }
    }
  }

  lemma {:induction false} Monotone(a: nat, b: nat, c: nat)
    requires a <= b
    ensures a * c <= b * c
  {
  }

  class BodySink {
    var value: string
    var maximum: Size
    var overflow: bool

    ghost predicate Valid() reads this { |value| <= maximum }

    // A chunk is appended whole if it fits and otherwise leaves the body as it was. The
    // answer differs from the size of the chunk exactly when the chunk was refused.
    method Receive(contents: string, size: Size, count: Size) returns (taken: Size)
      requires Valid() && |contents| == size * count
      modifies this
      ensures Valid() && maximum == old(maximum)
      ensures value == if |old(value) + contents| <= maximum then old(value) + contents else old(value)
      ensures overflow == (old(overflow) || |old(value) + contents| > maximum)
      ensures taken == size * count <==> |old(value) + contents| <= maximum
    {
      ProductGuard(size, count);
      if ProductTooLarge(size, count) {
        overflow := true;
        return 0;
      }
      var bytes := Times(size, count);
      if bytes > maximum || |value| > maximum - bytes {
        overflow := true;
        return 0;
      }
      value := value + contents;
      return bytes;
    }
  }

  // ---------- A transfer ----------

  datatype Transfer = Transfer(body: string, overflow: bool)

  function Concat(chunks: seq<string>): string {
    if chunks == [] then "" else Concat(chunks[..|chunks| - 1]) + chunks[|chunks| - 1]
  }

  // The sink after some chunks; a refusal ends the transfer.
  function Received(chunks: seq<string>, maximum: Size): Transfer {
    if chunks == [] then Transfer("", false)
    else
      var t, chunk := Received(chunks[..|chunks| - 1], maximum), chunks[|chunks| - 1];
      if t.overflow then t
      else if |t.body + chunk| <= maximum then Transfer(t.body + chunk, false)
      else Transfer(t.body, true)
  }

  // However a body is cut into chunks, it is received whole if it fits and refused if
  // it does not.
  lemma {:induction false} CutsDoNotMatter(chunks: seq<string>, maximum: Size)
    ensures Received(chunks, maximum).overflow <==> |Concat(chunks)| > maximum
    ensures !Received(chunks, maximum).overflow ==> Received(chunks, maximum).body == Concat(chunks)
    ensures |Received(chunks, maximum).body| <= maximum && Received(chunks, maximum).body <= Concat(chunks)
  {
    if chunks != [] {
      CutsDoNotMatter(chunks[..|chunks| - 1], maximum);
    }
  }

  predicate Deliverable(chunks: seq<string>) { forall i :: 0 <= i < |chunks| ==> |chunks[i]| < SIZE_RANGE }

  // What the transfer library does with a new sink: chunk after chunk until one is refused.
  method ReceiveBody(sink: BodySink, chunks: seq<string>)
    requires sink.value == "" && !sink.overflow && Deliverable(chunks)
    modifies sink
    ensures sink.maximum == old(sink.maximum)
    ensures Transfer(sink.value, sink.overflow) == Received(chunks, sink.maximum)
    ensures sink.overflow <==> |Concat(chunks)| > sink.maximum
    ensures !sink.overflow ==> sink.value == Concat(chunks)
  {
    CutsDoNotMatter(chunks, sink.maximum);
    for i := 0 to |chunks|
      invariant sink.Valid() && sink.maximum == old(sink.maximum) && !sink.overflow
      invariant Transfer(sink.value, sink.overflow) == Received(chunks[..i], sink.maximum)
    {
      assert chunks[..i + 1][..i] == chunks[..i];
      var taken := sink.Receive(chunks[i], 1, |chunks[i]|);
      if taken != |chunks[i]| {
        RefusedStays(chunks, i + 1, sink.maximum);
        return;
      }
    }
    assert chunks[..|chunks|] == chunks;
  }

  lemma {:induction false} RefusedStays(chunks: seq<string>, n: nat, maximum: Size)
    requires n <= |chunks| && Received(chunks[..n], maximum).overflow
    ensures Received(chunks, maximum) == Received(chunks[..n], maximum)
    decreases |chunks|
  {
    if n == |chunks| {
      assert chunks[..n] == chunks;
    } else {
      assert chunks[..|chunks| - 1][..n] == chunks[..n];
      RefusedStays(chunks[..|chunks| - 1], n, maximum);
    }
  }

  // ---------- Headers ----------

  predicate IsSpace(c: char) { c == ' ' || 9 <= c as int <= 13 }

  function Lower(s: string): (r: string)
    ensures |r| == |s|
  {
    if s == "" then ""
    else [if 'A' <= s[0] <= 'Z' then (s[0] as int + 32) as char else s[0]] + Lower(s[1..])
  }

  function Start(s: string): (n: nat)
    ensures n <= |s|
  {
    if s != "" && IsSpace(s[0]) then 1 + Start(s[1..]) else 0
  }

  function Finish(s: string): (n: nat)
    ensures n <= |s|
  {
    if s != "" && IsSpace(s[|s| - 1]) then Finish(s[..|s| - 1]) else |s|
  }

  function Trim(s: string): string {
    if Start(s) >= Finish(s) then "" else s[Start(s)..Finish(s)]
  }

  function FindColon(s: string): (n: nat)
    ensures n <= |s|
    ensures n < |s| ==> s[n] == ':'
    ensures forall i :: 0 <= i < n ==> s[i] != ':'
  {
    if s == "" || s[0] == ':' then 0 else 1 + FindColon(s[1..])
  }

  datatype Header = Header(name: string, value: string)

  function HeaderOf(line: string): Option<Header> {
    var separator := FindColon(line);
    if separator == |line| then None
    else
      var name := Lower(Trim(line[..separator]));
      if name == "" then None else Some(Header(name, Trim(line[separator + 1..])))
  }

  function Assign(headers: map<string, string>, line: string): map<string, string> {
    match HeaderOf(line)
    case None => headers
    case Some(h) => headers[h.name := h.value]
  }

  class HeaderSink {
    var value: map<string, string>
    var bytes: Size
    var overflow: bool

    ghost predicate Valid() reads this { bytes <= MAXIMUM_HEADER_BYTES }

    // A line is counted and read if it fits, and otherwise leaves the headers as they were.
    method Receive(contents: string, size: Size, count: Size) returns (taken: Size)
      requires Valid() && |contents| == size * count
      modifies this
      ensures Valid()
      ensures old(bytes) + |contents| <= 65536 ==>
                taken == |contents| && bytes == old(bytes) + |contents|
                && value == Assign(old(value), contents) && overflow == old(overflow)
      ensures old(bytes) + |contents| > 65536 ==>
                taken != |contents| && bytes == old(bytes) && value == old(value) && overflow
    {
      hide Times, ProductTooLarge, FindColon, Trim, Lower;
      ProductGuard(size, count);
      if ProductTooLarge(size, count) {
        overflow := true;
        return 0;
      }
      var n := Times(size, count);
      if n > MAXIMUM_HEADER_BYTES || bytes > MAXIMUM_HEADER_BYTES - n {
        overflow := true;
        return 0;
      }
      bytes := bytes + n;
      var separator := FindColon(contents);
      if separator != |contents| {
        var name := Lower(Trim(contents[..separator]));
        var text := Trim(contents[separator + 1..]);
        if name != "" {
          value := value[name := text];
        }
      }
      return n;
    }
  }

  predicate AllSpace(s: string) { forall i :: 0 <= i < |s| ==> IsSpace(s[i]) }

  // No space at either end.
  predicate Tight(s: string) { s != "" ==> !IsSpace(s[0]) && !IsSpace(s[|s| - 1]) }

  lemma {:induction false} StartIs(pre: string, rest: string)
    requires AllSpace(pre) && (rest == "" || !IsSpace(rest[0]))
    ensures Start(pre + rest) == |pre|
  {
    if pre == "" {
      assert pre + rest == rest;
    } else {
      StartIs(pre[1..], rest);
      assert (pre + rest)[1..] == pre[1..] + rest;
    }
  }

  lemma {:induction false} FinishIs(rest: string, post: string)
    requires AllSpace(post) && (rest == "" || !IsSpace(rest[|rest| - 1]))
    ensures Finish(rest + post) == |rest|
    decreases |post|
  {
    if post == "" {
      assert rest + post == rest;
    } else {
      FinishIs(rest, post[..|post| - 1]);
      assert (rest + post)[..|rest + post| - 1] == rest + post[..|post| - 1];
    }
  }

  // Tab, the two line breaks, the two feeds and the blank.
  lemma {:induction false} SpacesAre(c: char)
    ensures IsSpace(c) <==> c in {'\t', '\n', 11 as char, 12 as char, '\r', ' '}
  {
  }

  // Trimming takes off exactly the space around a text.
  lemma {:induction false} TrimIs(pre: string, text: string, post: string)
    requires AllSpace(pre) && AllSpace(post) && Tight(text)
    ensures Trim(pre + text + post) == text
  {
    hide Start, Finish, IsSpace;
    var s := pre + text + post;
    if text == "" {
      assert s == (pre + post) + "";
      StartIs(pre + post, "");
      FinishIsBounded(s);
    } else {
      assert s == pre + (text + post);
      StartIs(pre, text + post);
      FinishIs(pre + text, post);
      assert s[|pre|..|pre + text|] == text;
    }
  }

  lemma {:induction false} FinishIsBounded(s: string)
    ensures Finish(s) <= |s|
  {
  }

  lemma {:induction false} LowerKeepsEmpty(s: string)
    ensures Lower(s) == "" <==> s == ""
  {
  }

  lemma {:induction false} ColonIs(name: string, rest: string)
    requires ':' !in name
    ensures FindColon(name + ":" + rest) == |name|
  {
    var s := name + ":" + rest;
    if name != "" {
      ColonIs(name[1..], rest);
      assert s[1..] == name[1..] + ":" + rest;
      assert name[0] in name;
    }
  }

  // Lower case keeps every character but the letters A to Z, which become a to z.
  lemma {:induction false} LowerAt(s: string, i: nat)
    requires i < |s|
    ensures 'A' <= s[i] <= 'Z' ==> Lower(s)[i] as int == s[i] as int + 32
    ensures !('A' <= s[i] <= 'Z') ==> Lower(s)[i] == s[i]
  {
    if i > 0 {
      LowerAt(s[1..], i - 1);
    }
  }

  // A header line is read as its name in lower case and its value, whatever space
  // surrounds them.
  lemma {:induction false} HeaderIsRead(
    pre: string, name: string, post: string, pre2: string, value: string, post2: string)
    requires AllSpace(pre) && AllSpace(post) && AllSpace(pre2) && AllSpace(post2)
    requires Tight(name) && Tight(value) && name != "" && ':' !in name
    ensures HeaderOf(pre + name + post + ":" + (pre2 + value + post2)) == Some(Header(Lower(name), value))
  {
    hide Trim, Lower, AllSpace, FindColon;
    var left, right := pre + name + post, pre2 + value + post2;
    var line := left + ":" + right;
    NoColonInSpace(pre);
    NoColonInSpace(post);
    ColonIs(left, right);
    assert line[..|left|] == left && line[|left| + 1..] == right;
    TrimIs(pre, name, post);
    TrimIs(pre2, value, post2);
    LowerKeepsEmpty(name);
  }

  lemma {:induction false} NoColonInSpace(s: string)
    requires AllSpace(s)
    ensures ':' !in s
  {
  }

  function HeadersOf(lines: seq<string>): map<string, string> {
    if lines == [] then map[] else Assign(HeadersOf(lines[..|lines| - 1]), lines[|lines| - 1])
  }

  predicate Names(line: string, name: string) { HeaderOf(line).Some? && HeaderOf(line).value.name == name }

  // A header has the value of the last line that names it.
  lemma {:induction false} LastLineWins(lines: seq<string>, name: string)
    ensures name in HeadersOf(lines) <==> exists i :: 0 <= i < |lines| && Names(lines[i], name)
    ensures forall i :: 0 <= i < |lines| && Names(lines[i], name) && (forall j :: i < j < |lines| ==> !Names(lines[j], name))
              ==> name in HeadersOf(lines) && HeadersOf(lines)[name] == HeaderOf(lines[i]).value.value
  {
    hide HeaderOf;
    if lines != [] {
      var rest := lines[..|lines| - 1];
      LastLineWins(rest, name);
      if exists i :: 0 <= i < |lines| && Names(lines[i], name) && !Names(lines[|lines| - 1], name) {
        var i :| 0 <= i < |lines| && Names(lines[i], name);
        assert rest[i] == lines[i];
      }
    }
  }

  // Header lines are handed to a new sink one by one until one is refused. All are taken
  // exactly when they fit together, and the sink holds the headers of those taken.
  method ReceiveHeaders(sink: HeaderSink, lines: seq<string>) returns (n: nat)
    requires sink.value == map[] && sink.bytes == 0 && !sink.overflow && Deliverable(lines)
    modifies sink
    ensures n <= |lines| && sink.value == HeadersOf(lines[..n])
    ensures sink.overflow <==> n < |lines|
    ensures n == |lines| <==> |Concat(lines)| <= 65536
    ensures |Concat(lines[..n])| <= 65536
    ensures n < |lines| ==> |Concat(lines[..n + 1])| > 65536
  {
    hide Assign;
    n := 0;
    while n < |lines|
      invariant n <= |lines| && sink.Valid() && !sink.overflow
      invariant sink.value == HeadersOf(lines[..n])
      invariant sink.bytes == |Concat(lines[..n])|
    {
      assert lines[..n + 1][..n] == lines[..n];
      var taken := sink.Receive(lines[n], 1, |lines[n]|);
      if taken != |lines[n]| {
        ConcatGrows(lines, n + 1);
        return;
      }
      n := n + 1;
    }
    assert lines[..n] == lines;
  }

  lemma {:induction false} ConcatGrows(chunks: seq<string>, n: nat)
    requires n <= |chunks|
    ensures |Concat(chunks[..n])| <= |Concat(chunks)|
    decreases |chunks|
  {
    if n == |chunks| {
      assert chunks[..n] == chunks;
    } else {
      ConcatGrows(chunks[..|chunks| - 1], n);
      assert chunks[..|chunks| - 1][..n] == chunks[..n];
    }
  }
}
