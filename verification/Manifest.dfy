// The canonical text of an archive manifest.
module Manifest {

  predicate IsBreak(c: char) {
    c == '\n' || c == '\r' || c as int == 0x0b || c as int == 0x0c || 0x1c <= c as int <= 0x1e
    || c as int == 0x85 || c as int == 0x2028 || c as int == 0x2029
  }

  predicate Plain(line: string) { forall i :: 0 <= i < |line| ==> !IsBreak(line[i]) }

  // text.replace("\r\n", "\n")
  function ReplaceCrLf(s: string): string {
    if s == "" then ""
    else if |s| >= 2 && s[0] == '\r' && s[1] == '\n' then ['\n'] + ReplaceCrLf(s[2..])
    else [s[0]] + ReplaceCrLf(s[1..])
  }

  // The length of the text before the first line break.
  function LineLength(s: string): (n: nat)
    ensures n <= |s| && Plain(s[..n]) && (n < |s| ==> IsBreak(s[n]))
  {
    if s == "" || IsBreak(s[0]) then 0
    else
      var n := 1 + LineLength(s[1..]);
      assert forall i :: 0 < i < n ==> s[..n][i] == s[1..][..n - 1][i - 1];
      n
  }

  // text.splitlines(): a carriage return and the newline after it are one break.
  function SplitLines(s: string): (lines: seq<string>)
    ensures forall i :: 0 <= i < |lines| ==> Plain(lines[i])
    decreases |s|
  {
    if s == "" then []
    else
      var n := LineLength(s);
      if n == |s| then (assert s[..n] == s; [s])
      else if s[n] == '\r' && n + 1 < |s| && s[n + 1] == '\n' then [s[..n]] + SplitLines(s[n + 2..])
      else [s[..n]] + SplitLines(s[n + 1..])
  }

  const JDK_PREFIX := "Build-Jdk-Spec:"

  predicate RecordsJdk(line: string) { JDK_PREFIX <= line }

  // The lines that do not record the Java version of the build.
  function Kept(lines: seq<string>): seq<string> {
    if lines == [] then []
    else (if RecordsJdk(lines[0]) then [] else [lines[0]]) + Kept(lines[1..])
  }

  function StripBlank(lines: seq<string>): (r: seq<string>)
    ensures r <= lines
    ensures r != [] ==> r[|r| - 1] != ""
  {
    if lines != [] && lines[|lines| - 1] == "" then StripBlank(lines[..|lines| - 1]) else lines
  }

  // "\r\n".join(lines)
  function JoinCrLf(lines: seq<string>): string {
    if lines == [] then "" else if |lines| == 1 then lines[0] else lines[0] + "\r\n" + JoinCrLf(lines[1..])
  }

  // The lines that the canonical text keeps.
  function Essential(lines: seq<string>): seq<string> { StripBlank(Kept(lines)) }

  function Canonical(lines: seq<string>): string { JoinCrLf(lines) + "\r\n\r\n" }

  function Normalized(text: string): string {
    Canonical(Essential(SplitLines(ReplaceCrLf(text))))
  }

  // The loop that pops trailing blank lines.
  method NormalizeText(text: string) returns (r: string)
    ensures r == Normalized(text)
  {
    var kept := Kept(SplitLines(ReplaceCrLf(text)));
    ghost var all := kept;
    while kept != [] && kept[|kept| - 1] == ""
      invariant StripBlank(kept) == StripBlank(all)
    {
      kept := kept[..|kept| - 1];
    }
    r := JoinCrLf(kept) + "\r\n\r\n";
  }

  // ---------- Texts written line by line ----------

  datatype Ending = Lf | CrLf | Cr

  function EndingText(e: Ending): string {
    match e
    case Lf => "\n"
    case CrLf => "\r\n"
    case Cr => "\r"
  }

  datatype Line = Line(text: string, ending: Ending)

  predicate PlainLines(lines: seq<Line>) { forall i :: 0 <= i < |lines| ==> Plain(lines[i].text) }

  function Render(lines: seq<Line>, tail: string): string {
    if lines == [] then tail else lines[0].text + EndingText(lines[0].ending) + Render(lines[1..], tail)
  }

  function Texts(lines: seq<Line>, tail: string): seq<string> {
    if lines == [] then (if tail == "" then [] else [tail]) else [lines[0].text] + Texts(lines[1..], tail)
  }

  // A lone carriage return before an empty line that ends in a newline: the two
  // endings run together and read as one.
  predicate RunsTogether(a: Line, b: Line) { a.ending == Cr && b.text == "" && b.ending != Cr }

  predicate Unambiguous(lines: seq<Line>) {
    forall i :: 0 <= i < |lines| - 1 ==> !RunsTogether(lines[i], lines[i + 1])
  }

  predicate Merges(lines: seq<Line>) { |lines| >= 2 && lines[0].ending == Cr && lines[1] == Line("", Lf) }

  // A carriage return and the newline of the empty line after it become one newline.
  function Merge(lines: seq<Line>): seq<Line>
    decreases |lines|
  {
    if lines == [] then []
    else if Merges(lines)
      then [Line(lines[0].text, Lf)] + Merge(lines[2..])
    else [lines[0]] + Merge(lines[1..])
  }

  function ToLf(lines: seq<Line>): seq<Line> {
    if lines == [] then []
    else [if lines[0].ending == CrLf then Line(lines[0].text, Lf) else lines[0]] + ToLf(lines[1..])
  }

  lemma {:induction false} ReplaceChar(c: char, rest: string)
    requires !IsBreak(c)
    ensures ReplaceCrLf([c] + rest) == [c] + ReplaceCrLf(rest)
  {
    assert ([c] + rest)[1..] == rest;
  }

  lemma {:induction false} ReplacePlain(line: string, rest: string)
    requires Plain(line)
    ensures ReplaceCrLf(line + rest) == line + ReplaceCrLf(rest)
  {
    hide ReplaceCrLf, IsBreak;
    if line == "" {
      assert line + rest == rest;
    } else {
      ReplacePlain(line[1..], rest);
      ReplaceChar(line[0], line[1..] + rest);
      assert line + rest == [line[0]] + (line[1..] + rest);
    }
  }

  lemma {:induction false} SplitPlain(line: string, rest: string)
    requires Plain(line) && rest != "" && IsBreak(rest[0])
    ensures LineLength(line + rest) == |line|
    ensures (line + rest)[..|line|] == line && (line + rest)[|line|..] == rest
  {
    if line == "" {
      assert line + rest == rest;
    } else {
      SplitPlain(line[1..], rest);
      assert (line + rest)[1..] == line[1..] + rest;
      assert !IsBreak(line[0]);
    }
  }

  lemma {:induction false} PlainLength(line: string)
    requires Plain(line)
    ensures LineLength(line) == |line|
  {
    if line != "" {
      PlainLength(line[1..]);
      assert !IsBreak(line[0]);
    }
  }

  // One line and its break are taken off the front.
  lemma {:induction false} SplitOne(line: string, ending: Ending, rest: string)
    requires Plain(line)
    requires ending != Lf ==> ending == CrLf || rest == "" || rest[0] != '\n'
    ensures SplitLines(line + EndingText(ending) + rest) == [line] + SplitLines(rest)
  {
    var s, more := line + EndingText(ending) + rest, EndingText(ending) + rest;
    assert s == line + more;
    SplitPlain(line, more);
    var n := |line|;
    assert s[n..] == more && s[n] == more[0];
    if ending == CrLf {
      assert s[n + 1] == more[1] && s[n + 2..] == rest;
    } else {
      assert s[n + 1..] == rest;
      if n + 1 < |s| {
        assert s[n + 1] == rest[0];
      }
    }
  }

  lemma {:induction false} PlainTail(lines: seq<Line>, n: nat)
    requires PlainLines(lines) && n <= |lines|
    ensures PlainLines(lines[n..])
  {
  }

  lemma {:induction false} PlainStart(line: string, rest: string)
    requires Plain(line) && line != ""
    ensures (line + rest)[0] != '\n'
  {
    assert !IsBreak(line[0]);
  }

  // A rendered text starts with a newline only if its first line is empty and ends in one.
  lemma {:induction false} FirstOfRender(lines: seq<Line>, tail: string)
    requires PlainLines(lines) && Plain(tail)
    requires lines == [] || lines[0] != Line("", Lf)
    ensures Render(lines, tail) == "" || Render(lines, tail)[0] != '\n'
  {
    if lines == [] {
      if tail != "" {
        PlainStart(tail, "");
      }
    } else if lines[0].text != "" {
      var line, more := lines[0].text, EndingText(lines[0].ending) + Render(lines[1..], tail);
      PlainStart(line, more);
      assert Render(lines, tail) == line + more;
    }
  }

  // A lone carriage return is followed by a newline only across a merged pair of lines.
  lemma {:induction false} FirstOfRenderAfter(lines: seq<Line>, tail: string)
    requires PlainLines(lines) && Plain(tail) && lines != []
    requires !Merges(lines)
    ensures lines[0].ending == Cr ==> Render(lines[1..], tail) == "" || Render(lines[1..], tail)[0] != '\n'
  {
    if lines[0].ending == Cr {
      FirstOfRender(lines[1..], tail);
    }
  }

  lemma {:induction false} ReplaceTail(tail: string)
    requires Plain(tail)
    ensures ReplaceCrLf(tail) == tail
  {
    ReplacePlain(tail, "");
    assert tail + "" == tail;
  }

  lemma {:induction false} ReplaceNewline(rest: string)
    ensures ReplaceCrLf("\n" + rest) == "\n" + ReplaceCrLf(rest)
    ensures ReplaceCrLf("\r\n" + rest) == "\n" + ReplaceCrLf(rest)
    ensures (rest == "" || rest[0] != '\n') ==> ReplaceCrLf("\r" + rest) == "\r" + ReplaceCrLf(rest)
  {
    assert ("\n" + rest)[1..] == rest && ("\r\n" + rest)[2..] == rest && ("\r" + rest)[1..] == rest;
  }

  // One line and its break, taken off the front before the breaks are unified.
  lemma {:induction false} ReplaceOne(line: Line, rest: string)
    requires Plain(line.text)
    requires line.ending == Cr ==> rest == "" || rest[0] != '\n'
    ensures ReplaceCrLf(line.text + EndingText(line.ending) + rest)
         == line.text + EndingText(if line.ending == CrLf then Lf else line.ending) + ReplaceCrLf(rest)
  {
    hide ReplaceCrLf, Plain;
    ReplacePlain(line.text, EndingText(line.ending) + rest);
    ReplaceNewline(rest);
    assert line.text + EndingText(line.ending) + rest == line.text + (EndingText(line.ending) + rest);
  }

  lemma {:induction false} RenderMerged(lines: seq<Line>, tail: string)
    requires Merges(lines)
    ensures Render(lines, tail) == lines[0].text + "\r\n" + Render(lines[2..], tail)
    ensures Render(ToLf(Merge(lines)), tail) == lines[0].text + "\n" + Render(ToLf(Merge(lines[2..])), tail)
  {
    assert lines[1..][1..] == lines[2..];
    assert Render(lines[1..], tail) == "\n" + Render(lines[2..], tail);
    var first := Line(lines[0].text, Lf);
    assert ([first] + Merge(lines[2..]))[1..] == Merge(lines[2..]);
    assert ToLf([first] + Merge(lines[2..])) == [first] + ToLf(Merge(lines[2..]));
    assert ([first] + ToLf(Merge(lines[2..])))[1..] == ToLf(Merge(lines[2..]));
  }

  lemma {:induction false} RenderUnmerged(lines: seq<Line>, tail: string)
    requires lines != [] && !Merges(lines)
    ensures Render(ToLf(Merge(lines)), tail)
         == lines[0].text + EndingText(if lines[0].ending == CrLf then Lf else lines[0].ending)
            + Render(ToLf(Merge(lines[1..])), tail)
  {
    var first := if lines[0].ending == CrLf then Line(lines[0].text, Lf) else lines[0];
    assert ([lines[0]] + Merge(lines[1..]))[1..] == Merge(lines[1..]);
    assert ToLf([lines[0]] + Merge(lines[1..])) == [first] + ToLf(Merge(lines[1..]));
    assert ([first] + ToLf(Merge(lines[1..])))[1..] == ToLf(Merge(lines[1..]));
  }

  lemma {:induction false} ReplaceRendered(lines: seq<Line>, tail: string)
    requires PlainLines(lines) && Plain(tail)
    ensures ReplaceCrLf(Render(lines, tail)) == Render(ToLf(Merge(lines)), tail)
    decreases |lines|
  {
    hide ReplaceCrLf, Plain, IsBreak;
    if lines == [] {
      ReplaceTail(tail);
    } else {
      hide ToLf, Merge;
      if Merges(lines) {
        RenderMerged(lines, tail);
        ReplaceRendered(lines[2..], tail);
        ReplaceOne(Line(lines[0].text, CrLf), Render(lines[2..], tail));
      } else {
        RenderUnmerged(lines, tail);
        ReplaceRendered(lines[1..], tail);
        FirstOfRenderAfter(lines, tail);
        ReplaceOne(lines[0], Render(lines[1..], tail));
      }
    }
  }

  lemma {:induction false} TextsMerged(lines: seq<Line>, tail: string)
    requires lines != []
    ensures Merges(lines) ==> Texts(Merge(lines), tail) == [lines[0].text] + Texts(Merge(lines[2..]), tail)
    ensures !Merges(lines) ==> Texts(Merge(lines), tail) == [lines[0].text] + Texts(Merge(lines[1..]), tail)
  {
    if Merges(lines) {
      assert Merge(lines)[1..] == Merge(lines[2..]);
    } else {
      assert Merge(lines)[1..] == Merge(lines[1..]);
    }
  }

  lemma {:induction false} SplitRendered(lines: seq<Line>, tail: string)
    requires PlainLines(lines) && Plain(tail)
    requires forall i :: 0 <= i < |lines| ==> lines[i].ending != CrLf
    ensures SplitLines(Render(lines, tail)) == Texts(Merge(lines), tail)
    decreases |lines|
  {
    hide Plain, IsBreak;
    if lines == [] {
      PlainLength(tail);
    } else {
      hide SplitLines, Merge, Texts;
      TextsMerged(lines, tail);
      if Merges(lines) {
        RenderMerged(lines, tail);
        SplitRendered(lines[2..], tail);
        SplitOne(lines[0].text, CrLf, Render(lines[2..], tail));
      } else {
        SplitRendered(lines[1..], tail);
        FirstOfRenderAfter(lines, tail);
        SplitOne(lines[0].text, lines[0].ending, Render(lines[1..], tail));
      }
    }
  }

  lemma {:induction false} ToLfKeeps(lines: seq<Line>)
    ensures |ToLf(lines)| == |lines|
    ensures forall i :: 0 <= i < |lines| ==>
              ToLf(lines)[i] == if lines[i].ending == CrLf then Line(lines[i].text, Lf) else lines[i]
  {
    if lines != [] {
      ToLfKeeps(lines[1..]);
    }
  }

  lemma {:induction false} MergeKeepsPlain(lines: seq<Line>)
    requires PlainLines(lines)
    ensures PlainLines(Merge(lines))
    decreases |lines|
  {
    if lines != [] {
      PlainTail(lines, 1);
      if Merges(lines) {
        PlainTail(lines, 2);
        MergeKeepsPlain(lines[2..]);
      } else {
        MergeKeepsPlain(lines[1..]);
      }
    }
  }

  // What normalizing reads from a rendered text.
  lemma {:induction false} ReadRendered(lines: seq<Line>, tail: string)
    requires PlainLines(lines) && Plain(tail)
    ensures SplitLines(ReplaceCrLf(Render(lines, tail))) == Texts(Merge(ToLf(Merge(lines))), tail)
  {
    hide SplitLines, ReplaceCrLf, Merge, Render, Texts;
    ReplaceRendered(lines, tail);
    MergeKeepsPlain(lines);
    ToLfKeeps(Merge(lines));
    SplitRendered(ToLf(Merge(lines)), tail);
  }

  // Merging does nothing exactly when there is nothing to merge, and otherwise it
  // loses lines.
  lemma {:induction false} MergeLength(lines: seq<Line>)
    ensures |Merge(lines)| <= |lines|
    ensures Merge(lines) == lines <==> forall i :: 0 <= i < |lines| - 1 ==> !(lines[i].ending == Cr && lines[i + 1] == Line("", Lf))
    ensures Merge(lines) != lines ==> |Merge(lines)| < |lines|
    decreases |lines|
  {
    if lines == [] {
    } else if Merges(lines) {
      MergeLength(lines[2..]);
    } else {
      var rest := lines[1..];
      MergeLength(rest);
      assert lines == [lines[0]] + rest;
      if forall i :: 0 <= i < |lines| - 1 ==> !(lines[i].ending == Cr && lines[i + 1] == Line("", Lf)) {
        forall i | 0 <= i < |rest| - 1 ensures !(rest[i].ending == Cr && rest[i + 1] == Line("", Lf)) {
          assert rest[i] == lines[i + 1] && rest[i + 1] == lines[i + 2];
        }
      }
      if Merge(lines) == lines {
        assert Merge(rest) == rest;
        forall i | 0 <= i < |lines| - 1 ensures !(lines[i].ending == Cr && lines[i + 1] == Line("", Lf)) {
          if i > 0 {
            assert lines[i] == rest[i - 1] && lines[i + 1] == rest[i];
          }
        }
      }
    }
  }

  lemma {:induction false} TextsOf(lines: seq<Line>, tail: string)
    ensures |Texts(lines, tail)| == |lines| + if tail == "" then 0 else 1
    ensures forall i :: 0 <= i < |lines| ==> Texts(lines, tail)[i] == lines[i].text
    ensures tail != "" ==> Texts(lines, tail)[|lines|] == tail
  {
    if lines != [] {
      TextsOf(lines[1..], tail);
    }
  }

  // Whatever endings its lines have, a text is read back as its lines exactly when no
  // lone carriage return runs together with the ending of an empty line after it.
  lemma {:induction false} EndingsDoNotMatter(lines: seq<Line>, tail: string)
    requires PlainLines(lines) && Plain(tail)
    ensures SplitLines(ReplaceCrLf(Render(lines, tail))) == Texts(lines, tail) <==> Unambiguous(lines)
  {
    hide SplitLines, ReplaceCrLf, Merge, Render, Texts, Plain;
    ReadRendered(lines, tail);
    MergeLength(lines);
    var once := ToLf(Merge(lines));
    ToLfKeeps(Merge(lines));
    MergeLength(once);
    TextsOf(lines, tail);
    TextsOf(Merge(once), tail);
    if Unambiguous(lines) {
      forall i | 0 <= i < |lines| - 1 ensures !(lines[i].ending == Cr && lines[i + 1] == Line("", Lf)) {
        assert !RunsTogether(lines[i], lines[i + 1]);
      }
      forall i | 0 <= i < |once| - 1 ensures !(once[i].ending == Cr && once[i + 1] == Line("", Lf)) {
        assert !RunsTogether(lines[i], lines[i + 1]);
      }
      assert Texts(lines, tail) == Texts(Merge(once), tail);
    } else if Merge(lines) == lines {
      var i :| 0 <= i < |lines| - 1 && RunsTogether(lines[i], lines[i + 1]);
      assert once[i].ending == Cr && once[i + 1] == Line("", Lf);
    }
  }

  // ---------- What the canonical text keeps ----------

  lemma {:induction false} KeptStep(line: string, rest: seq<string>)
    ensures Kept([line] + rest) == (if RecordsJdk(line) then [] else [line]) + Kept(rest)
  {
    hide RecordsJdk;
    assert ([line] + rest)[1..] == rest;
  }

  lemma {:induction false} KeptNothing()
    ensures Kept([]) == []
  {
  }

  // The breaks of a text: newline, carriage return, the vertical tab and the form feed, the
  // three separators, the next line, and the two breaks of Unicode.
  lemma {:induction false} BreaksAre(c: char)
    ensures IsBreak(c) <==> c as int in {10, 11, 12, 13, 28, 29, 30, 133, 8232, 8233}
  {
  }

  // The lines that are dropped, by their first fifteen characters.
  lemma {:induction false} RecordsJdkIs(line: string)
    ensures RecordsJdk(line) <==> |line| >= 15 && line[..15] == "Build-Jdk-Spec:"
  {
  }

  lemma {:induction false} KeptConcat(a: seq<string>, b: seq<string>)
    ensures Kept(a + b) == Kept(a) + Kept(b)
  {
    hide Kept, RecordsJdk;
    if a == [] {
      KeptNothing();
      assert a + b == b;
    } else {
      var line, rest := a[0], a[1..];
      KeptConcat(rest, b);
      KeptStep(line, rest);
      KeptStep(line, rest + b);
      assert a == [line] + rest;
      assert a + b == [line] + (rest + b);
    }
  }

  lemma {:induction false} StripBlankConcat(a: seq<string>, n: nat)
    ensures StripBlank(a + seq(n, _ => "")) == StripBlank(a)
    decreases n
  {
    var blanks := seq(n, _ => "");
    if n == 0 {
      assert a + blanks == a;
    } else {
      assert (a + blanks)[..|a + blanks| - 1] == a + seq(n - 1, _ => "");
      StripBlankConcat(a, n - 1);
    }
  }

  lemma {:induction false} KeptBlanks(n: nat)
    ensures Kept(seq(n, _ => "")) == seq(n, _ => "")
  {
    if n > 0 {
      KeptBlanks(n - 1);
      assert seq(n, _ => "")[1..] == seq(n - 1, _ => "");
    }
  }

  lemma {:induction false} KeptSpec(spec: string)
    requires RecordsJdk(spec)
    ensures Kept([spec]) == []
  {
    assert [spec][1..] == [];
  }

  // A Build-Jdk-Spec line anywhere and any number of blank lines at the end leave no trace.
  lemma {:induction false} EssentialIgnores(a: seq<string>, spec: string, b: seq<string>, n: nat)
    requires RecordsJdk(spec)
    ensures Essential(a + [spec] + b + seq(n, _ => "")) == Essential(a + b)
  {
    var blanks := seq(n, _ => "");
    KeptSpec(spec);
    hide Kept, StripBlank;
    KeptConcat(a + [spec] + b, blanks);
    KeptConcat(a + [spec], b);
    KeptConcat(a, [spec]);
    KeptConcat(a, b);
    KeptBlanks(n);
    assert Kept(a + [spec]) == Kept(a);
    StripBlankConcat(Kept(a + b), n);
  }

  predicate IsEssential(lines: seq<string>) {
    (forall i :: 0 <= i < |lines| ==> Plain(lines[i]) && !RecordsJdk(lines[i]))
    && (lines != [] ==> lines[|lines| - 1] != "")
  }

  lemma {:induction false} KeptOfKept(lines: seq<string>)
    requires forall i :: 0 <= i < |lines| ==> !RecordsJdk(lines[i])
    ensures Kept(lines) == lines
  {
    if lines != [] {
      KeptOfKept(lines[1..]);
    }
  }

  lemma {:induction false} EssentialOfEssential(lines: seq<string>, n: nat)
    requires IsEssential(lines)
    ensures Essential(lines + seq(n, _ => "")) == lines
  {
    KeptOfKept(lines);
    KeptConcat(lines, seq(n, _ => ""));
    KeptBlanks(n);
    StripBlankConcat(lines, n);
  }

  lemma {:induction false} KeptIsIn(lines: seq<string>)
    ensures forall line :: line in Kept(lines) <==> line in lines && !RecordsJdk(line)
  {
    if lines != [] {
      KeptIsIn(lines[1..]);
      assert lines == [lines[0]] + lines[1..];
    }
  }

  lemma {:induction false} EssentialIsEssential(text: string)
    ensures IsEssential(Essential(SplitLines(ReplaceCrLf(text))))
  {
    var lines := SplitLines(ReplaceCrLf(text));
    var kept := Kept(lines);
    KeptIsIn(lines);
    forall i | 0 <= i < |kept| ensures Plain(kept[i]) && !RecordsJdk(kept[i]) {
      assert kept[i] in kept;
    }
    assert StripBlank(kept) <= kept;
  }

  function WithCrLf(lines: seq<string>): seq<Line> {
    if lines == [] then [] else [Line(lines[0], CrLf)] + WithCrLf(lines[1..])
  }

  lemma {:induction false} WithCrLfAt(lines: seq<string>)
    ensures |WithCrLf(lines)| == |lines|
    ensures forall i :: 0 <= i < |lines| ==> WithCrLf(lines)[i] == Line(lines[i], CrLf)
  {
    if lines != [] {
      WithCrLfAt(lines[1..]);
    }
  }

  // The canonical text ends every line, and one more blank line after them.
  lemma {:induction false} CanonicalIsRendered(lines: seq<string>)
    requires lines != []
    ensures Canonical(lines) == Render(WithCrLf(lines + [""]), "")
  {
    var all := lines + [""];
    assert all[1..] == lines[1..] + [""];
    if |lines| == 1 {
      assert all[1..] == [""];
      assert WithCrLf([""])[1..] == [];
      assert WithCrLf(all)[1..] == WithCrLf([""]);
    } else {
      CanonicalIsRendered(lines[1..]);
      assert WithCrLf(all)[1..] == WithCrLf(lines[1..] + [""]);
      assert Canonical(lines) == lines[0] + "\r\n" + Canonical(lines[1..]);
    }
  }

  lemma {:induction false} RenderedCrLfReads(lines: seq<string>)
    requires forall i :: 0 <= i < |lines| ==> Plain(lines[i])
    ensures SplitLines(ReplaceCrLf(Render(WithCrLf(lines), ""))) == lines
  {
    hide SplitLines, ReplaceCrLf, Render, Texts, Plain, WithCrLf;
    WithCrLfAt(lines);
    var all := WithCrLf(lines);
    PlainEmpty();
    EndingsDoNotMatter(all, "");
    TextsOf(all, "");
    assert Texts(all, "") == lines;
  }

  lemma {:induction false} PlainEmpty()
    ensures Plain("")
  {
  }

  lemma {:induction false} EmptyCanonical()
    ensures Canonical([]) == Render(WithCrLf(["", ""]), "")
  {
    assert ["", ""][1..] == [""] && [""][1..] == [];
    assert WithCrLf(["", ""])[1..] == WithCrLf([""]);
    assert WithCrLf([""])[1..] == [];
  }

  // Reading the canonical text of some lines gives those lines back.
  lemma {:induction false} CanonicalReads(lines: seq<string>)
    requires IsEssential(lines)
    ensures Essential(SplitLines(ReplaceCrLf(Canonical(lines)))) == lines
  {
    hide SplitLines, ReplaceCrLf, Render, Essential, WithCrLf, Canonical;
    var n := if lines == [] then 2 else 1;
    var all := lines + seq(n, _ => "");
    if lines == [] {
      EmptyCanonical();
      assert all == ["", ""];
    } else {
      CanonicalIsRendered(lines);
      assert all == lines + [""];
    }
    forall i | 0 <= i < |all| ensures Plain(all[i]) {
      PlainEmpty();
    }
    RenderedCrLfReads(all);
    EssentialOfEssential(lines, n);
  }

  // Two texts have one canonical form exactly when they keep the same lines.
  lemma {:induction false} NormalizedTellsEssential(a: string, b: string)
    ensures Normalized(a) == Normalized(b)
       <==> Essential(SplitLines(ReplaceCrLf(a))) == Essential(SplitLines(ReplaceCrLf(b)))
  {
    hide SplitLines, ReplaceCrLf, Essential, Canonical, IsEssential;
    EssentialIsEssential(a);
    EssentialIsEssential(b);
    CanonicalReads(Essential(SplitLines(ReplaceCrLf(a))));
    CanonicalReads(Essential(SplitLines(ReplaceCrLf(b))));
  }

  lemma {:induction false} NormalizedIsIdempotent(text: string)
    ensures Normalized(Normalized(text)) == Normalized(text)
  {
    hide SplitLines, ReplaceCrLf, Essential, Canonical, IsEssential;
    EssentialIsEssential(text);
    CanonicalReads(Essential(SplitLines(ReplaceCrLf(text))));
  }
}
