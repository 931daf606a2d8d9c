// When the line endings of a manifest show in its canonical text.
module ManifestEndings {
  import opened Manifest

  // What is read from a rendered text: endings run together, are unified, and run
  // together again.
  function ReadTexts(lines: seq<Line>, tail: string): seq<string> { Texts(Merge(ToLf(Merge(lines))), tail) }

  // The same lines, all ended by a newline.
  function AllLf(lines: seq<Line>): seq<Line> {
    if lines == [] then [] else [Line(lines[0].text, Lf)] + AllLf(lines[1..])
  }

  predicate LeavesNoTrace(text: string) { text == "" || RecordsJdk(text) }

  predicate OnlyTraceless(lines: seq<Line>, tail: string) {
    LeavesNoTrace(tail) && forall i :: 0 <= i < |lines| ==> LeavesNoTrace(lines[i].text)
  }

  // Two endings run together only where nothing but blank and Build-Jdk-Spec lines follow.
  predicate Harmless(lines: seq<Line>, tail: string) {
    forall i :: 0 <= i < |lines| - 1 && RunsTogether(lines[i], lines[i + 1]) ==> OnlyTraceless(lines[i + 2..], tail)
  }

  // The essential lines of a text and the lines after it, from those of the latter.
  function Prefixed(text: string, rest: seq<string>): seq<string> {
    if RecordsJdk(text) || (text == "" && rest == []) then rest else [text] + rest
  }

  lemma {:induction false} StripBlankPrefixed(text: string, rest: seq<string>)
    ensures StripBlank([text] + rest) == if text == "" && StripBlank(rest) == [] then [] else [text] + StripBlank(rest)
    decreases |rest|
  {
    var all := [text] + rest;
    if rest == [] {
      assert all[..|all| - 1] == [];
    } else {
      assert all[|all| - 1] == rest[|rest| - 1];
      assert all[..|all| - 1] == [text] + rest[..|rest| - 1];
      if rest[|rest| - 1] == "" {
        StripBlankPrefixed(text, rest[..|rest| - 1]);
      }
    }
  }

  lemma {:induction false} EssentialPrefixed(text: string, rest: seq<string>)
    ensures Essential([text] + rest) == Prefixed(text, Essential(rest))
  {
    hide Kept, StripBlank, RecordsJdk;
    BlankIsKept();
    KeptStep(text, rest);
    StripBlankPrefixed(text, Kept(rest));
    assert [] + Kept(rest) == Kept(rest);
  }

  lemma {:induction false} BlankIsKept()
    ensures !RecordsJdk("")
  {
  }

  lemma {:induction false} EssentialNothing()
    ensures Essential([]) == []
  {
  }

  function EssentialOf(lines: seq<Line>, tail: string): seq<string> { Essential(Texts(lines, tail)) }

  lemma {:induction false} EssentialOfStep(lines: seq<Line>, tail: string)
    requires lines != []
    ensures EssentialOf(lines, tail) == Prefixed(lines[0].text, EssentialOf(lines[1..], tail))
  {
    hide Essential;
    EssentialPrefixed(lines[0].text, Texts(lines[1..], tail));
  }

  lemma {:induction false} EssentialOfNone(tail: string)
    ensures EssentialOf([], tail) == Prefixed(tail, [])
  {
    hide Essential;
    EssentialNothing();
    EssentialPrefixed(tail, []);
    assert [tail] + [] == [tail];
  }

  lemma {:induction false} TracelessIsNothing(lines: seq<Line>, tail: string)
    ensures OnlyTraceless(lines, tail) <==> EssentialOf(lines, tail) == []
  {
    hide EssentialOf, RecordsJdk;
    if lines == [] {
      EssentialOfNone(tail);
    } else {
      EssentialOfStep(lines, tail);
      TracelessIsNothing(lines[1..], tail);
      assert lines == [lines[0]] + lines[1..];
    }
  }

  // One round of running together loses an essential line unless nothing essential follows.
  predicate MergesHarmlessly(lines: seq<Line>, tail: string)
    decreases |lines|
  {
    if lines == [] then true
    else if Merges(lines) then EssentialOf(lines[2..], tail) == []
    else MergesHarmlessly(lines[1..], tail)
  }

  lemma {:induction false} MergeStep(lines: seq<Line>)
    requires lines != []
    ensures Merges(lines) ==> Merge(lines) == [Line(lines[0].text, Lf)] + Merge(lines[2..])
    ensures !Merges(lines) ==> Merge(lines) == [lines[0]] + Merge(lines[1..])
  {
  }

  lemma {:induction false} MergeLoses(lines: seq<Line>, tail: string)
    ensures |EssentialOf(Merge(lines), tail)| <= |EssentialOf(lines, tail)|
    ensures |EssentialOf(Merge(lines), tail)| == |EssentialOf(lines, tail)| ==> EssentialOf(Merge(lines), tail) == EssentialOf(lines, tail)
    ensures EssentialOf(Merge(lines), tail) == EssentialOf(lines, tail) <==> MergesHarmlessly(lines, tail)
    decreases |lines|
  {
    hide EssentialOf, RecordsJdk, Merge;
    if lines == [] {
      MergeNothing();
    } else {
      MergeStep(lines);
      EssentialOfStep(lines, tail);
      EssentialOfStep(Merge(lines), tail);
      if Merges(lines) {
        EssentialOfStep(lines[1..], tail);
        assert lines[1..][1..] == lines[2..];
        BlankIsKept();
        MergeLoses(lines[2..], tail);
        assert Merge(lines)[1..] == Merge(lines[2..]);
      } else {
        MergeLoses(lines[1..], tail);
        assert Merge(lines)[1..] == Merge(lines[1..]);
      }
    }
  }

  lemma {:induction false} MergeNothing()
    ensures Merge([]) == []
  {
  }

  lemma {:induction false} TracelessMerges(lines: seq<Line>, tail: string)
    requires EssentialOf(lines, tail) == []
    ensures MergesHarmlessly(lines, tail)
    ensures EssentialOf(ToLf(Merge(lines)), tail) == []
    ensures MergesHarmlessly(ToLf(Merge(lines)), tail)
  {
    hide EssentialOf, Merge, ToLf, MergesHarmlessly;
    TracelessIsHarmless(lines, tail);
    MergeLoses(lines, tail);
    ToLfKeepsEssential(Merge(lines), tail);
    TracelessIsHarmless(ToLf(Merge(lines)), tail);
  }

  lemma {:induction false} TracelessIsHarmless(lines: seq<Line>, tail: string)
    requires EssentialOf(lines, tail) == []
    ensures MergesHarmlessly(lines, tail)
    decreases |lines|
  {
    hide EssentialOf, RecordsJdk;
    if lines != [] {
      EssentialOfStep(lines, tail);
      if Merges(lines) {
        EssentialOfStep(lines[1..], tail);
        assert lines[1..][1..] == lines[2..];
      } else {
        TracelessIsHarmless(lines[1..], tail);
      }
    }
  }

  lemma {:induction false} ToLfKeepsEssential(lines: seq<Line>, tail: string)
    ensures EssentialOf(ToLf(lines), tail) == EssentialOf(lines, tail)
  {
    hide EssentialOf;
    if lines != [] {
      EssentialOfStep(lines, tail);
      EssentialOfStep(ToLf(lines), tail);
      ToLfKeepsEssential(lines[1..], tail);
      assert ToLf(lines)[1..] == ToLf(lines[1..]);
    }
  }

  function Once(lines: seq<Line>): seq<Line> { ToLf(Merge(lines)) }

  function Unified(line: Line): Line { if line.ending == CrLf then Line(line.text, Lf) else line }

  lemma {:induction false} OnceStep(lines: seq<Line>)
    requires lines != []
    ensures Merges(lines) ==> Once(lines) == [Line(lines[0].text, Lf)] + Once(lines[2..])
    ensures !Merges(lines) ==> Once(lines) == [Unified(lines[0])] + Once(lines[1..])
  {
    hide Merge;
    MergeStep(lines);
    if Merges(lines) {
      assert Merge(lines)[1..] == Merge(lines[2..]);
    } else {
      assert Merge(lines)[1..] == Merge(lines[1..]);
    }
  }

  lemma {:induction false} MergesHarmlesslyStep(line: Line, rest: seq<Line>, tail: string)
    ensures line.ending == Cr && rest != [] && rest[0] == Line("", Lf) ==>
              (MergesHarmlessly([line] + rest, tail) <==> EssentialOf(rest[1..], tail) == [])
    ensures !(line.ending == Cr && rest != [] && rest[0] == Line("", Lf)) ==>
              (MergesHarmlessly([line] + rest, tail) <==> MergesHarmlessly(rest, tail))
  {
    hide EssentialOf;
    var all := [line] + rest;
    assert all[1..] == rest;
    if rest != [] {
      assert all[2..] == rest[1..];
    }
  }

  lemma {:induction false} TracelessSuffix(lines: seq<Line>, tail: string, n: nat)
    requires OnlyTraceless(lines, tail) && n <= |lines|
    ensures OnlyTraceless(lines[n..], tail)
  {
  }

  lemma {:induction false} HarmlessStep(lines: seq<Line>, tail: string)
    requires lines != []
    ensures |lines| >= 2 && RunsTogether(lines[0], lines[1]) ==>
              (Harmless(lines, tail) <==> EssentialOf(lines[2..], tail) == [])
    ensures !(|lines| >= 2 && RunsTogether(lines[0], lines[1])) ==>
              (Harmless(lines, tail) <==> Harmless(lines[1..], tail))
  {
    hide EssentialOf, RunsTogether, LeavesNoTrace;
    var rest := lines[1..];
    if |lines| >= 2 && RunsTogether(lines[0], lines[1]) {
      TracelessIsNothing(lines[2..], tail);
      if OnlyTraceless(lines[2..], tail) {
        forall i | 0 <= i < |lines| - 1 && RunsTogether(lines[i], lines[i + 1])
          ensures OnlyTraceless(lines[i + 2..], tail)
        {
          TracelessSuffix(lines[2..], tail, i);
          assert lines[2..][i..] == lines[i + 2..];
        }
      }
    } else {
      if Harmless(rest, tail) {
        forall i | 0 <= i < |lines| - 1 && RunsTogether(lines[i], lines[i + 1])
          ensures OnlyTraceless(lines[i + 2..], tail)
        {
          assert RunsTogether(rest[i - 1], rest[i]) && rest[i - 1 + 2..] == lines[i + 2..];
        }
      }
      if Harmless(lines, tail) {
        forall i | 0 <= i < |rest| - 1 && RunsTogether(rest[i], rest[i + 1])
          ensures OnlyTraceless(rest[i + 2..], tail)
        {
          assert RunsTogether(lines[i + 1], lines[i + 2]) && rest[i + 2..] == lines[i + 3..];
        }
      }
    }
  }

  lemma {:induction false} OnceKeepsNothing(lines: seq<Line>, tail: string)
    requires MergesHarmlessly(lines, tail)
    ensures EssentialOf(Once(lines), tail) == EssentialOf(lines, tail)
  {
    hide EssentialOf, Merge, ToLf, MergesHarmlessly;
    MergeLoses(lines, tail);
    ToLfKeepsEssential(Merge(lines), tail);
  }

  // A carriage return and the newlines of the two lines after it: the second round.
  lemma {:induction false} RoundsAfterReturn(line: Line, rest: seq<Line>, tail: string)
    requires line.ending == Cr && rest != [] && rest[0].text == "" && rest[0].ending == CrLf
    ensures EssentialOf(rest[1..], tail) == []
       <==> MergesHarmlessly([line] + rest, tail) && MergesHarmlessly([line] + Once(rest), tail)
  {
    hide EssentialOf, Once, MergesHarmlessly;
    OnceStep(rest);
    var after := rest[1..];
    assert rest == [rest[0]] + after;
    assert Once(rest)[1..] == Once(after);
    MergesHarmlesslyStep(line, rest, tail);
    MergesHarmlesslyStep(rest[0], after, tail);
    MergesHarmlesslyStep(line, Once(rest), tail);
    if EssentialOf(after, tail) == [] {
      OnceOfTraceless(after, tail);
    }
    if MergesHarmlessly(after, tail) {
      OnceKeepsNothing(after, tail);
    }
  }

  lemma {:induction false} OnceOfTraceless(lines: seq<Line>, tail: string)
    requires EssentialOf(lines, tail) == []
    ensures MergesHarmlessly(lines, tail)
    ensures EssentialOf(Once(lines), tail) == []
    ensures MergesHarmlessly(Once(lines), tail)
  {
    hide EssentialOf, Merge, ToLf, MergesHarmlessly;
    TracelessMerges(lines, tail);
  }

  // An empty line that has taken in the newline after it can itself run together with a
  // carriage return before it.
  lemma {:induction false} RoundsAfterMerged(line: Line, rest: seq<Line>, tail: string)
    requires line.ending == Cr && Merges(rest) && rest[0].text == ""
    ensures EssentialOf(rest[2..], tail) == []
       <==> MergesHarmlessly([line] + rest, tail) && MergesHarmlessly([line] + Once(rest), tail)
  {
    hide EssentialOf, Once;
    OnceStep(rest);
    assert Once(rest)[1..] == Once(rest[2..]);
    MergesHarmlesslyStep(line, rest, tail);
    MergesHarmlesslyStep(line, Once(rest), tail);
    if EssentialOf(rest[2..], tail) == [] {
      OnceOfTraceless(rest[2..], tail);
    }
  }

  lemma {:induction false} FirstOfOnce(lines: seq<Line>)
    ensures Once(lines) != [] && Once(lines)[0] == Line("", Lf)
       <==> lines != [] && lines[0].text == "" && (lines[0].ending != Cr || Merges(lines))
    ensures lines == [] ==> Once(lines) == []
  {
    hide Once;
    if lines == [] {
      OnceNothing();
    } else {
      OnceStep(lines);
    }
  }

  lemma {:induction false} OnceNothing()
    ensures Once([]) == []
  {
  }

  // Two rounds lose no essential line exactly when all that run together are harmless.
  lemma {:induction false} RoundsAreHarmless(lines: seq<Line>, tail: string)
    ensures Harmless(lines, tail) <==> MergesHarmlessly(lines, tail) && MergesHarmlessly(Once(lines), tail)
    decreases |lines|
  {
    if lines == [] {
      FirstOfOnce(lines);
    } else {
      hide EssentialOf, Once, MergesHarmlessly, Harmless;
      var line, rest := lines[0], lines[1..];
      assert lines == [line] + rest;
      HarmlessStep(lines, tail);
      OnceStep(lines);
      if Merges(lines) {
        MergesHarmlesslyStep(line, rest, tail);
        assert rest[1..] == lines[2..];
        MergesHarmlesslyStep(Line(line.text, Lf), Once(lines[2..]), tail);
        if EssentialOf(lines[2..], tail) == [] {
          OnceOfTraceless(lines[2..], tail);
        }
      } else if rest != [] && RunsTogether(line, rest[0]) {
        assert rest[1..] == lines[2..];
        RoundsAfterReturn(line, rest, tail);
      } else {
        RoundsAreHarmless(rest, tail);
        HarmlessSkip(line, rest, tail);
      }
    }
  }

  // A first line that runs together with nothing adds nothing.
  lemma {:induction false} HarmlessSkip(line: Line, rest: seq<Line>, tail: string)
    requires !(rest != [] && RunsTogether(line, rest[0]))
    requires Harmless(rest, tail) <==> MergesHarmlessly(rest, tail) && MergesHarmlessly(Once(rest), tail)
    ensures Harmless(rest, tail) <==> MergesHarmlessly([line] + rest, tail) && MergesHarmlessly([Unified(line)] + Once(rest), tail)
  {
    hide EssentialOf, Once, MergesHarmlessly, Harmless;
    MergesHarmlesslyStep(line, rest, tail);
    MergesHarmlesslyStep(Unified(line), Once(rest), tail);
    FirstOfOnce(rest);
    if line.ending == Cr && rest != [] && rest[0].text == "" && Merges(rest) {
      RoundsAfterMerged(line, rest, tail);
      HarmlessStep(rest, tail);
    }
  }

  lemma {:induction false} AllLfIs(lines: seq<Line>, tail: string)
    ensures |AllLf(lines)| == |lines|
    ensures forall i :: 0 <= i < |lines| ==> AllLf(lines)[i] == Line(lines[i].text, Lf)
    ensures Texts(AllLf(lines), tail) == Texts(lines, tail)
  {
    if lines != [] {
      AllLfIs(lines[1..], tail);
      assert AllLf(lines)[1..] == AllLf(lines[1..]);
    }
  }

  lemma {:induction false} AllLfReads(lines: seq<Line>, tail: string)
    requires PlainLines(lines) && Plain(tail)
    ensures PlainLines(AllLf(lines))
    ensures SplitLines(ReplaceCrLf(Render(AllLf(lines), tail))) == Texts(lines, tail)
  {
    hide SplitLines, ReplaceCrLf, Render, Texts, Plain;
    AllLfIs(lines, tail);
    EndingsDoNotMatter(AllLf(lines), tail);
  }

  // What normalizing keeps of a text is what it keeps of its lines exactly when the
  // endings that run together are harmless.
  lemma {:induction false} KeptDespiteEndings(lines: seq<Line>, tail: string)
    ensures Essential(ReadTexts(lines, tail)) == Essential(Texts(lines, tail)) <==> Harmless(lines, tail)
  {
    hide Essential, Merge, ToLf, MergesHarmlessly, Harmless, Texts;
    MergeLoses(lines, tail);
    ToLfKeepsEssential(Merge(lines), tail);
    MergeLoses(Once(lines), tail);
    RoundsAreHarmless(lines, tail);
  }

  // A text normalizes like the same lines all ended by a newline exactly when endings
  // run together only where nothing but blank and Build-Jdk-Spec lines follow.
  lemma {:induction false} EndingsAreForgotten(lines: seq<Line>, tail: string)
    requires PlainLines(lines) && Plain(tail)
    ensures Normalized(Render(lines, tail)) == Normalized(Render(AllLf(lines), tail)) <==> Harmless(lines, tail)
  {
    hide SplitLines, ReplaceCrLf, Essential, Canonical, Normalized, Texts, Render, Harmless, ReadTexts;
    ReadsAsTexts(lines, tail);
    AllLfReads(lines, tail);
    NormalizedTellsEssential(Render(lines, tail), Render(AllLf(lines), tail));
    KeptDespiteEndings(lines, tail);
  }

  lemma {:induction false} ReadsAsTexts(lines: seq<Line>, tail: string)
    requires PlainLines(lines) && Plain(tail)
    ensures SplitLines(ReplaceCrLf(Render(lines, tail))) == ReadTexts(lines, tail)
  {
    hide SplitLines, ReplaceCrLf, Texts, Render, Merge, ToLf;
    ReadRendered(lines, tail);
  }

  // Two ways of writing a manifest: different endings, different Build-Jdk-Spec lines,
  // different numbers of blank lines at the end. They normalize alike exactly when the
  // same lines are kept of what is read, which is what is kept of their lines unless
  // endings run together harmfully.
  lemma {:induction false} WritingsAgree(a: seq<Line>, atail: string, b: seq<Line>, btail: string)
    requires PlainLines(a) && Plain(atail) && PlainLines(b) && Plain(btail)
    ensures Normalized(Render(a, atail)) == Normalized(Render(b, btail))
       <==> Essential(ReadTexts(a, atail)) == Essential(ReadTexts(b, btail))
    ensures Essential(ReadTexts(a, atail)) == Essential(Texts(a, atail)) <==> Harmless(a, atail)
    ensures Harmless(a, atail) && Harmless(b, btail) ==>
              (Normalized(Render(a, atail)) == Normalized(Render(b, btail))
               <==> Essential(Texts(a, atail)) == Essential(Texts(b, btail)))
  {
    hide SplitLines, ReplaceCrLf, Essential, Canonical, Normalized, Texts, Render, Harmless, ReadTexts;
    ReadsAsTexts(a, atail);
    ReadsAsTexts(b, btail);
    KeptDespiteEndings(a, atail);
    KeptDespiteEndings(b, btail);
    NormalizedTellsEssential(Render(a, atail), Render(b, btail));
  }

  // ---------- An example ----------

  const EXAMPLE := [Line("a", Cr), Line("", Lf), Line("b", Lf)]

  lemma {:induction false} ExampleRenders()
    ensures Render(EXAMPLE, "") == "a\r\nb\n" && Render(AllLf(EXAMPLE), "") == "a\n\nb\n"
    ensures Texts(EXAMPLE, "") == ["a", "", "b"]
  {
    var a, blank, b := Line("a", Lf), Line("", Lf), Line("b", Lf);
    assert EXAMPLE[1..] == [blank, b] && [blank, b][1..] == [b] && [b][1..] == [];
    assert Render([b], "") == "b\n" && Render([blank, b], "") == "\nb\n";
    assert AllLf([b]) == [b] && AllLf([blank, b]) == [blank, b] && AllLf(EXAMPLE) == [a, blank, b];
    assert [a, blank, b][1..] == [blank, b];
    assert Texts([b], "") == ["b"] && Texts([blank, b], "") == ["", "b"];
  }

  lemma {:induction false} ExampleReads()
    ensures PlainLines(EXAMPLE) && Plain("")
    ensures ReadTexts(EXAMPLE, "") == ["a", "b"]
  {
    var a, b := Line("a", Lf), Line("b", Lf);
    assert EXAMPLE[2..] == [b] && [a, b][1..] == [b] && [b][1..] == [];
    assert Merge([b]) == [b] && Merge(EXAMPLE) == [a, b];
    assert ToLf([b]) == [b] && ToLf([a, b]) == [a, b] && Merge([a, b]) == [a, b];
    assert Texts([b], "") == ["b"];
  }

  lemma {:induction false} ExampleKeeps()
    ensures Essential(["a", "b"]) == ["a", "b"] && Canonical(["a", "b"]) == "a\r\nb\r\n\r\n"
    ensures Essential(["a", "", "b"]) == ["a", "", "b"] && Canonical(["a", "", "b"]) == "a\r\n\r\nb\r\n\r\n"
  {
    hide Essential;
    EssentialNothing();
    EssentialPrefixed("b", []);
    EssentialPrefixed("a", ["b"]);
    EssentialPrefixed("", ["b"]);
    EssentialPrefixed("a", ["", "b"]);
    assert ["b"] + [] == ["b"] && ["a"] + ["b"] == ["a", "b"];
    assert [""] + ["b"] == ["", "b"] && ["a"] + ["", "b"] == ["a", "", "b"];
    assert ["b"][1..] == [] && ["a", "b"][1..] == ["b"] && ["", "b"][1..] == ["b"] && ["a", "", "b"][1..] == ["", "b"];
    assert JoinCrLf(["", "b"]) == "\r\nb";
  }

  // Endings can matter: here the blank line between the two others is lost.
  lemma {:induction false} EndingsCanMatter()
    ensures Render(EXAMPLE, "") == "a\r\nb\n" && Render(AllLf(EXAMPLE), "") == "a\n\nb\n"
    ensures Normalized("a\r\nb\n") == "a\r\nb\r\n\r\n"
    ensures Normalized("a\n\nb\n") == "a\r\n\r\nb\r\n\r\n"
  {
    hide Render, SplitLines, ReplaceCrLf, Essential, Texts, ReadTexts, AllLf, Canonical, Plain;
    ExampleRenders();
    ExampleReads();
    ExampleKeeps();
    ReadsAsTexts(EXAMPLE, "");
    AllLfReads(EXAMPLE, "");
  }
}
