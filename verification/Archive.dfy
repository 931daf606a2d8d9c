// Rewriting an archive in its canonical form.
module Archives {
  import opened Octets
  import opened Wrappers
  import opened Ordering
  import Manifest
  import ManifestEndings
  import Utf8

  // Seconds after the start of the year 2000.
  const SOURCE_TIME := 0
  const CLASS_TIME := 2

  const MANIFEST_PATH := "META-INF/MANIFEST.MF"
  const EXECUTABLE_PATH := "bootstrap"
  const UNIX := 3

  datatype Compression = Stored | Deflated | Other

  datatype Entry = Entry(
    name: string, contents: seq<Byte>, attributes: nat, time: int, compression: Compression, system: nat)

  datatype Why = UnsafeName | Symlink | ManifestNotText

  datatype Refusal = Duplicates | BadEntry(name: string, why: Why)

  // ---------- Names ----------

  // The components between slashes.
  function Components(name: string): (parts: seq<string>)
    ensures parts != []
  {
    if name == "" then [""]
    else
      var rest := Components(name[1..]);
      if name[0] == '/' then [""] + rest else [[name[0]] + rest[0]] + rest[1..]
  }

  function Without(parts: seq<string>, dropped: set<string>): seq<string> {
    if parts == [] then []
    else (if parts[0] in dropped then [] else [parts[0]]) + Without(parts[1..], dropped)
  }

  // PurePosixPath(name).parts
  function Parts(name: string): seq<string> {
    (if "/" <= name then [if "//" <= name && !("///" <= name) then "//" else "/"] else [])
    + Without(Components(name), {"", "."})
  }

  predicate Unsafe(name: string) {
    name == "" || '\\' in name || "/" <= name || exists i :: 0 <= i < |Parts(name)| && Parts(name)[i] in {"", ".", ".."}
  }

  lemma {:induction false} WithoutKeeps(parts: seq<string>, dropped: set<string>)
    ensures forall part :: part in Without(parts, dropped) <==> part in parts && part !in dropped
  {
    if parts != [] {
      WithoutKeeps(parts[1..], dropped);
      assert parts == [parts[0]] + parts[1..];
    }
  }

  function JoinSlash(parts: seq<string>): string {
    if parts == [] then "" else if |parts| == 1 then parts[0] else parts[0] + "/" + JoinSlash(parts[1..])
  }

  // The components of a name hold no slash, and joined with slashes they are the name.
  lemma {:induction false} ComponentsAre(name: string)
    ensures JoinSlash(Components(name)) == name
    ensures forall i :: 0 <= i < |Components(name)| ==> '/' !in Components(name)[i]
  {
    if name != "" {
      ComponentsAre(name[1..]);
      var parts, rest := Components(name), Components(name[1..]);
      assert name == [name[0]] + name[1..];
      if name[0] == '/' {
        assert parts[1..] == rest;
      } else {
        assert parts[1..] == rest[1..];
        if |rest| > 1 {
          assert JoinSlash(parts) == ([name[0]] + rest[0]) + "/" + JoinSlash(rest[1..]);
        }
      }
    }
  }

  // The root is a part of its own: two slashes if there are exactly two, and otherwise one.
  lemma {:induction false} RootIs(name: string)
    requires name != "" && name[0] == '/'
    ensures Parts(name) != []
    ensures Parts(name)[0] == if |name| >= 2 && name[1] == '/' && (|name| == 2 || name[2] != '/') then "//" else "/"
  {
  }

  // Splitting a path has dropped its empty components and its single dots, so the only
  // component that is ever refused is the double dot.
  lemma {:induction false} OnlyDoubleDotsAreRefused(name: string)
    ensures Unsafe(name) <==> name == "" || '\\' in name || "/" <= name || ".." in Components(name)
  {
    WithoutKeeps(Components(name), {"", "."});
    if !("/" <= name) {
      assert Parts(name) == Without(Components(name), {"", "."});
      if ".." in Components(name) {
        assert ".." in Parts(name);
      }
      if i :| 0 <= i < |Parts(name)| && Parts(name)[i] in {"", ".", ".."} {
        assert Parts(name)[i] in Parts(name);
      }
    }
  }

  // ---------- One entry ----------

  predicate IsDirectory(name: string) { name != "" && name[|name| - 1] == '/' }

  predicate IsClass(name: string) { |name| >= 6 && name[|name| - 6..] == ".class" }

  function SourceMode(attributes: nat): nat { attributes / 65536 % 65536 }

  predicate IsLink(mode: nat) { mode / 4096 == 10 }

  // 0o40755, 0o100755 and 0o100644
  function NormalMode(name: string): nat {
    if IsDirectory(name) then 16877 else if name == EXECUTABLE_PATH then 33261 else 33188
  }

  function NormalTime(name: string): int { if IsClass(name) then CLASS_TIME else SOURCE_TIME }

  function NormalContents(name: string, contents: seq<Byte>): Option<seq<Byte>> {
    if name != MANIFEST_PATH then Some(contents)
    else match Utf8.Decode(contents)
      case None => None
      case Some(text) => Some(Utf8.Encode(Manifest.Normalized(text)))
  }

  function Fault(e: Entry): Option<Why> {
    if Unsafe(e.name) then Some(UnsafeName)
    else if IsLink(SourceMode(e.attributes)) then Some(Symlink)
    else if NormalContents(e.name, e.contents).None? then Some(ManifestNotText)
    else None
  }

  function Rewrite(e: Entry, stored: bool): Entry
    requires Fault(e).None?
  {
    Entry(
      e.name, NormalContents(e.name, e.contents).value, NormalMode(e.name) * 65536, NormalTime(e.name),
      if stored || IsDirectory(e.name) then Stored else Deflated, UNIX)
  }

  // ---------- A whole archive ----------

  function Names(entries: seq<Entry>): (names: seq<string>)
    ensures |names| == |entries|
    ensures forall i :: 0 <= i < |entries| ==> names[i] == entries[i].name
  {
    seq(|entries|, i requires 0 <= i < |entries| => entries[i].name)
  }

  predicate Acceptable(entries: seq<Entry>) {
    Distinct(Names(entries)) && forall i :: 0 <= i < |entries| ==> Fault(entries[i]).None?
  }

  // The canonical form: the rewritten entries, each once, in the order of their names.
  predicate IsNormalForm(entries: seq<Entry>, stored: bool, out: seq<Entry>)
    requires Acceptable(entries)
  {
    && StrictlyAscending(Names(out))
    && (forall i :: 0 <= i < |entries| ==> Rewrite(entries[i], stored) in out)
    && (forall k :: 0 <= k < |out| ==> ComesFrom(out[k], entries, stored))
  }

  predicate ComesFrom(e: Entry, entries: seq<Entry>, stored: bool)
    requires Acceptable(entries)
  {
    exists i :: 0 <= i < |entries| && e == Rewrite(entries[i], stored)
  }

  // Why an archive is refused: a repeated name, or else the first entry in the order of
  // the names that cannot be rewritten.
  predicate Explains(entries: seq<Entry>, refusal: Refusal) {
    match refusal
    case Duplicates => !Distinct(Names(entries))
    case BadEntry(name, why) =>
      && Distinct(Names(entries))
      && (exists i :: 0 <= i < |entries| && entries[i].name == name && Fault(entries[i]) == Some(why))
      && (forall i :: 0 <= i < |entries| && Less(entries[i].name, name) ==> Fault(entries[i]).None?)
  }

  // getinfo(name): the last entry with that name.
  function Find(entries: seq<Entry>, name: string): (e: Entry)
    requires name in Names(entries)
    ensures e in entries && e.name == name
  {
    var last := entries[|entries| - 1];
    assert entries == entries[..|entries| - 1] + [last];
    if last.name == name then last
    else
      var k :| 0 <= k < |entries| && Names(entries)[k] == name;
      assert Names(entries[..|entries| - 1])[k] == name;
      Find(entries[..|entries| - 1], name)
  }

  lemma {:induction false} FindIs(entries: seq<Entry>, i: nat)
    requires Distinct(Names(entries)) && i < |entries|
    ensures entries[i].name in Names(entries) && Find(entries, entries[i].name) == entries[i]
  {
    assert Names(entries)[i] == entries[i].name;
    var found := Find(entries, entries[i].name);
    var k :| 0 <= k < |entries| && entries[k] == found;
    assert Names(entries)[k] == found.name;
  }

  class Archive {
    var entries: seq<Entry>

    // An archive is replaced by its canonical form, or it is refused and left as it was.
    method Normalize(stored: bool) returns (refusal: Option<Refusal>)
      modifies this
      ensures refusal.None? <==> Acceptable(old(entries))
      ensures refusal.None? ==> IsNormalForm(old(entries), stored, entries)
      ensures refusal.Some? ==> entries == old(entries) && Explains(entries, refusal.value)
    {
      hide Fault, Rewrite, Find, Sort, SetOf, IsNormalForm, Explains, Acceptable;
      var names := Sort(Names(entries));
      SortSorts(Names(entries));
      SortKeepsDistinct(Names(entries));
      SizeTellsDistinct(names);
      if |names| != |SetOf(names)| {
        RepeatedName(entries);
        return Some(Duplicates);
      }
      var target: seq<Entry> := [];
      for n := 0 to |names|
        invariant entries == old(entries)
        invariant |target| == n
        invariant forall k :: 0 <= k < n ==> names[k] in Names(entries)
        invariant forall k :: 0 <= k < n ==> Fault(Find(entries, names[k])).None?
        invariant forall k :: 0 <= k < n ==> target[k] == Rewrite(Find(entries, names[k]), stored)
      {
        assert names[n] in names;
        var original := Find(entries, names[n]);
        var fault := Fault(original);
        if fault.Some? {
          FirstFault(entries, names, n);
          return Some(BadEntry(names[n], fault.value));
        }
        target := target + [Rewrite(original, stored)];
      }
      AllFound(entries, names);
      TargetIsNormalForm(entries, stored, names, target);
      entries := target;
      return None;
    }
  }

  lemma {:induction false} RepeatedName(entries: seq<Entry>)
    requires !Distinct(Names(entries))
    ensures !Acceptable(entries) && Explains(entries, Duplicates)
  {
  }

  lemma {:induction false} FirstFault(entries: seq<Entry>, names: seq<string>, n: nat)
    requires Distinct(Names(entries)) && StrictlyAscending(names) && n < |names|
    requires forall name :: name in names <==> name in Names(entries)
    requires forall k :: 0 <= k < n ==> names[k] in names && Fault(Find(entries, names[k])).None?
    requires names[n] in names && Fault(Find(entries, names[n])).Some?
    ensures !Acceptable(entries)
    ensures Explains(entries, BadEntry(names[n], Fault(Find(entries, names[n])).value))
  {
    var e := Find(entries, names[n]);
    var at :| 0 <= at < |entries| && entries[at] == e;
    assert entries[at].name == names[n];
    forall i | 0 <= i < |entries| && Less(entries[i].name, names[n]) ensures Fault(entries[i]).None? {
      FindIs(entries, i);
      var k :| 0 <= k < |names| && names[k] == entries[i].name;
      if n < k {
        LeqAntisymmetric(names[k], names[n]);
      }
    }
  }

  lemma {:induction false} AllFound(entries: seq<Entry>, names: seq<string>)
    requires Distinct(Names(entries))
    requires forall name :: name in names <==> name in Names(entries)
    requires forall k :: 0 <= k < |names| ==> names[k] in names && Fault(Find(entries, names[k])).None?
    ensures Acceptable(entries)
  {
    forall i | 0 <= i < |entries| ensures Fault(entries[i]).None? {
      FindIs(entries, i);
      var k :| 0 <= k < |names| && names[k] == entries[i].name;
    }
  }

  lemma {:induction false} TargetIsNormalForm(entries: seq<Entry>, stored: bool, names: seq<string>, target: seq<Entry>)
    requires Acceptable(entries) && StrictlyAscending(names) && |target| == |names|
    requires forall name :: name in names <==> name in Names(entries)
    requires forall k :: 0 <= k < |names| ==> names[k] in names && Fault(Find(entries, names[k])).None?
    requires forall k :: 0 <= k < |names| ==> target[k] == Rewrite(Find(entries, names[k]), stored)
    ensures IsNormalForm(entries, stored, target)
  {
    assert Names(target) == names;
    forall i | 0 <= i < |entries| ensures Rewrite(entries[i], stored) in target {
      FindIs(entries, i);
      var k :| 0 <= k < |names| && names[k] == entries[i].name;
      assert target[k] == Rewrite(entries[i], stored);
    }
    forall k | 0 <= k < |target| ensures ComesFrom(target[k], entries, stored) {
      var i :| 0 <= i < |entries| && entries[i] == Find(entries, names[k]);
      assert target[k] == Rewrite(entries[i], stored);
    }
  }

  // ---------- The canonical form ----------

  predicate Within(a: seq<Entry>, b: seq<Entry>) { forall i :: 0 <= i < |a| ==> a[i] in b }

  predicate SameEntries(a: seq<Entry>, b: seq<Entry>) { Within(a, b) && Within(b, a) }

  lemma {:induction false} SomethingIsNotWithin(a: seq<Entry>)
    requires a != []
    ensures !Within(a, [])
  {
    assert a[0] !in [];
  }

  lemma {:induction false} HeadsAgree(a: seq<Entry>, b: seq<Entry>)
    requires StrictlyAscending(Names(a)) && StrictlyAscending(Names(b)) && SameEntries(a, b)
    requires a != [] && b != []
    ensures a[0] == b[0]
  {
    var i :| 0 <= i < |b| && b[i] == a[0];
    var j :| 0 <= j < |a| && a[j] == b[0];
    assert Names(b)[i] == a[0].name && Names(a)[j] == b[0].name;
    if i > 0 && j > 0 {
      assert Less(Names(b)[0], Names(b)[i]);
      assert Less(Names(a)[0], Names(a)[j]);
      LeqAntisymmetric(a[0].name, b[0].name);
    }
  }

  lemma {:induction false} TailKeeps(a: seq<Entry>, b: seq<Entry>)
    requires StrictlyAscending(Names(a)) && SameEntries(a, b)
    requires a != [] && b != [] && a[0] == b[0]
    ensures StrictlyAscending(Names(a[1..]))
    ensures Within(a[1..], b[1..])
  {
    assert forall i :: 0 <= i < |a[1..]| ==> Names(a[1..])[i] == Names(a)[i + 1];
    forall i | 0 <= i < |a[1..]| ensures a[1..][i] in b[1..] {
      var k :| 0 <= k < |b| && b[k] == a[i + 1];
      assert Less(Names(a)[0], Names(a)[i + 1]);
      assert b[1..][k - 1] == b[k];
    }
  }

  lemma {:induction false} HeadAndTail(a: seq<Entry>, b: seq<Entry>)
    requires a != [] && b != [] && a[0] == b[0] && a[1..] == b[1..]
    ensures a == b
  {
    assert a == [a[0]] + a[1..] && b == [b[0]] + b[1..];
  }

  // Entries in strictly ascending order of their names are determined by their set.
  lemma {:induction false} AscendingIsUnique(a: seq<Entry>, b: seq<Entry>)
    requires StrictlyAscending(Names(a)) && StrictlyAscending(Names(b)) && SameEntries(a, b)
    ensures a == b
  {
    hide Within, StrictlyAscending;
    if a == [] {
      if b != [] {
        SomethingIsNotWithin(b);
      }
    } else if b == [] {
      SomethingIsNotWithin(a);
    } else {
      HeadsAgree(a, b);
      TailKeeps(a, b);
      TailKeeps(b, a);
      AscendingIsUnique(a[1..], b[1..]);
      HeadAndTail(a, b);
    }
  }

  // There is only one canonical form.
  lemma {:induction false} NormalFormIsUnique(entries: seq<Entry>, stored: bool, a: seq<Entry>, b: seq<Entry>)
    requires Acceptable(entries) && IsNormalForm(entries, stored, a) && IsNormalForm(entries, stored, b)
    ensures a == b
  {
    hide Fault, Rewrite, StrictlyAscending;
    AscendingIsUnique(a, b);
  }

  lemma {:induction false} NormalContentsAreStable(name: string, contents: seq<Byte>)
    requires NormalContents(name, contents).Some?
    ensures NormalContents(name, NormalContents(name, contents).value) == NormalContents(name, contents)
  {
    hide Utf8.Decode, Utf8.Encode, Manifest.Normalized;
    if name == MANIFEST_PATH {
      var text := Utf8.Decode(contents).value;
      Utf8.DecodeEncoded(Manifest.Normalized(text));
      Manifest.NormalizedIsIdempotent(text);
    }
  }

  // A rewritten entry is acceptable, and rewriting it again changes nothing.
  lemma {:induction false} RewriteIsIdempotent(e: Entry, stored: bool)
    requires Fault(e).None?
    ensures Fault(Rewrite(e, stored)).None?
    ensures Rewrite(Rewrite(e, stored), stored) == Rewrite(e, stored)
  {
    hide Unsafe, NormalContents;
    NormalContentsAreStable(e.name, e.contents);
  }

  predicate Fixed(e: Entry, stored: bool) { Fault(e).None? && Rewrite(e, stored) == e }

  lemma {:induction false} FormIsFixed(entries: seq<Entry>, stored: bool, once: seq<Entry>)
    requires Acceptable(entries) && IsNormalForm(entries, stored, once)
    ensures StrictlyAscending(Names(once))
    ensures forall k :: 0 <= k < |once| ==> Fixed(once[k], stored)
  {
    hide Fault, Rewrite, StrictlyAscending, Distinct;
    forall k | 0 <= k < |once| ensures Fixed(once[k], stored) {
      assert ComesFrom(once[k], entries, stored);
      var i :| 0 <= i < |entries| && once[k] == Rewrite(entries[i], stored);
      RewriteIsIdempotent(entries[i], stored);
    }
  }

  lemma {:induction false} FixedIsNormalForm(once: seq<Entry>, stored: bool)
    requires StrictlyAscending(Names(once))
    requires forall k :: 0 <= k < |once| ==> Fixed(once[k], stored)
    ensures Acceptable(once) && IsNormalForm(once, stored, once)
  {
    hide Fault, Rewrite, StrictlyAscending, Distinct;
    AscendingIsDistinct(Names(once));
    forall k | 0 <= k < |once| ensures Rewrite(once[k], stored) in once {
      assert Fixed(once[k], stored);
    }
    forall k | 0 <= k < |once| ensures ComesFrom(once[k], once, stored) {
      assert Fixed(once[k], stored);
    }
  }

  // Normalizing a normalized archive is accepted and changes nothing.
  lemma {:induction false} NormalizingIsIdempotent(
    entries: seq<Entry>, stored: bool, once: seq<Entry>, twice: seq<Entry>)
    requires Acceptable(entries) && IsNormalForm(entries, stored, once)
    ensures Acceptable(once)
    ensures IsNormalForm(once, stored, twice) <==> twice == once
  {
    hide Acceptable, IsNormalForm, Fixed, StrictlyAscending;
    FormIsFixed(entries, stored, once);
    FixedIsNormalForm(once, stored);
    if IsNormalForm(once, stored, twice) {
      NormalFormIsUnique(once, stored, once, twice);
    }
  }

  lemma {:induction false} AscendingIsDistinct(names: seq<string>)
    requires StrictlyAscending(names)
    ensures Distinct(names)
  {
    forall i, j | 0 <= i < j < |names| ensures names[i] != names[j] {
      assert Less(names[i], names[j]);
    }
  }

  // Two archives hold the same files: the same names with the same contents, as far as
  // contents are kept.
  predicate SameFiles(a: seq<Entry>, b: seq<Entry>) { Holds(a, b) && Holds(b, a) }

  predicate Holds(a: seq<Entry>, b: seq<Entry>) {
    forall i :: 0 <= i < |a| ==> HasFile(b, a[i])
  }

  predicate HasFile(entries: seq<Entry>, e: Entry) {
    exists j :: 0 <= j < |entries| && SameFile(e, entries[j])
  }

  predicate SameFile(a: Entry, b: Entry) {
    a.name == b.name && NormalContents(a.name, a.contents) == NormalContents(b.name, b.contents)
  }

  lemma {:induction false} RewriteTellsFile(a: Entry, b: Entry, stored: bool)
    requires Fault(a).None? && Fault(b).None?
    ensures Rewrite(a, stored) == Rewrite(b, stored) <==> SameFile(a, b)
  {
    hide Unsafe, NormalContents;
  }

  lemma {:induction false} FileOfForm(
    a: seq<Entry>, b: seq<Entry>, stored: bool, outA: seq<Entry>, outB: seq<Entry>, i: nat)
    requires Acceptable(a) && Acceptable(b) && i < |a|
    requires IsNormalForm(a, stored, outA) && IsNormalForm(b, stored, outB) && Within(outA, outB)
    ensures HasFile(b, a[i])
  {
    hide Fault, Rewrite, SameFile, StrictlyAscending, Distinct;
    var k :| 0 <= k < |outA| && outA[k] == Rewrite(a[i], stored);
    var l :| 0 <= l < |outB| && outB[l] == outA[k];
    var j :| 0 <= j < |b| && outB[l] == Rewrite(b[j], stored);
    RewriteTellsFile(a[i], b[j], stored);
  }

  lemma {:induction false} FormOfFile(
    a: seq<Entry>, b: seq<Entry>, stored: bool, outA: seq<Entry>, outB: seq<Entry>, k: nat)
    requires Acceptable(a) && Acceptable(b) && k < |outA|
    requires IsNormalForm(a, stored, outA) && IsNormalForm(b, stored, outB) && Holds(a, b)
    ensures outA[k] in outB
  {
    hide Fault, Rewrite, SameFile, StrictlyAscending, Distinct;
    var i :| 0 <= i < |a| && outA[k] == Rewrite(a[i], stored);
    var j :| 0 <= j < |b| && SameFile(a[i], b[j]);
    RewriteTellsFile(a[i], b[j], stored);
  }

  lemma {:induction false} HoldsIffWithin(
    a: seq<Entry>, b: seq<Entry>, stored: bool, outA: seq<Entry>, outB: seq<Entry>)
    requires Acceptable(a) && Acceptable(b)
    requires IsNormalForm(a, stored, outA) && IsNormalForm(b, stored, outB)
    ensures Holds(a, b) <==> Within(outA, outB)
  {
    hide IsNormalForm, Acceptable, HasFile;
    if Holds(a, b) {
      forall k | 0 <= k < |outA| ensures outA[k] in outB {
        FormOfFile(a, b, stored, outA, outB, k);
      }
    }
    if Within(outA, outB) {
      forall i | 0 <= i < |a| ensures HasFile(b, a[i]) {
        FileOfForm(a, b, stored, outA, outB, i);
      }
    }
  }

  lemma {:induction false} FormsAscend(a: seq<Entry>, stored: bool, out: seq<Entry>)
    requires Acceptable(a) && IsNormalForm(a, stored, out)
    ensures StrictlyAscending(Names(out)) && Within(out, out)
  {
  }

  // The canonical forms of two archives are equal exactly when they hold the same files:
  // the order, the attributes, the times and the compression of the entries do not matter.
  lemma {:induction false} NormalFormTellsFiles(
    a: seq<Entry>, b: seq<Entry>, stored: bool, outA: seq<Entry>, outB: seq<Entry>)
    requires Acceptable(a) && Acceptable(b)
    requires IsNormalForm(a, stored, outA) && IsNormalForm(b, stored, outB)
    ensures outA == outB <==> SameFiles(a, b)
  {
    hide IsNormalForm, Acceptable, Holds, Within, StrictlyAscending;
    HoldsIffWithin(a, b, stored, outA, outB);
    HoldsIffWithin(b, a, stored, outB, outA);
    FormsAscend(a, stored, outA);
    FormsAscend(b, stored, outB);
    if SameFiles(a, b) {
      AscendingIsUnique(outA, outB);
    }
  }

  // A class entry is always stamped strictly later than any other entry.
  lemma {:induction false} ClassesAreLater(entries: seq<Entry>, stored: bool, out: seq<Entry>, c: nat, s: nat)
    requires Acceptable(entries) && IsNormalForm(entries, stored, out)
    requires c < |out| && s < |out| && IsClass(out[c].name) && !IsClass(out[s].name)
    ensures out[s].time < out[c].time
  {
    var i :| 0 <= i < |entries| && out[c] == Rewrite(entries[i], stored);
    var j :| 0 <= j < |entries| && out[s] == Rewrite(entries[j], stored);
  }

  // Two manifests count as the same contents exactly when the same lines are kept of what
  // is read from them. That is what is kept of the lines they were written with, for any
  // line endings, Build-Jdk-Spec lines and blank lines at the end, exactly where no
  // endings run together harmfully.
  lemma {:induction false} ManifestContentsAgree(
    a: seq<Manifest.Line>, atail: string, b: seq<Manifest.Line>, btail: string)
    requires Manifest.PlainLines(a) && Manifest.Plain(atail) && Manifest.PlainLines(b) && Manifest.Plain(btail)
    ensures NormalContents(MANIFEST_PATH, Utf8.Encode(Manifest.Render(a, atail)))
         == NormalContents(MANIFEST_PATH, Utf8.Encode(Manifest.Render(b, btail)))
       <==> Manifest.Essential(ManifestEndings.ReadTexts(a, atail)) == Manifest.Essential(ManifestEndings.ReadTexts(b, btail))
    ensures Manifest.Essential(ManifestEndings.ReadTexts(a, atail)) == Manifest.Essential(Manifest.Texts(a, atail))
       <==> ManifestEndings.Harmless(a, atail)
  {
    hide Utf8.Decode, Utf8.Encode, Manifest.Normalized, Manifest.Render, Manifest.Essential, Manifest.Texts,
      ManifestEndings.ReadTexts, ManifestEndings.Harmless;
    var ta, tb := Manifest.Render(a, atail), Manifest.Render(b, btail);
    Utf8.DecodeEncoded(ta);
    Utf8.DecodeEncoded(tb);
    Utf8.DecodeEncoded(Manifest.Normalized(ta));
    Utf8.DecodeEncoded(Manifest.Normalized(tb));
    ManifestEndings.WritingsAgree(a, atail, b, btail);
  }

  // ---------- The canonical form, spelled out ----------

  // What an archive must be to be accepted.
  lemma {:induction false} AcceptedArchives(entries: seq<Entry>)
    ensures Acceptable(entries) <==>
              (forall i, j :: 0 <= i < j < |entries| ==> entries[i].name != entries[j].name) &&
              (forall i :: 0 <= i < |entries| ==> EntryIsAccepted(entries[i]))
  {
    hide Fault, EntryIsAccepted;
    forall i | 0 <= i < |entries| ensures Fault(entries[i]).None? <==> EntryIsAccepted(entries[i]) {
      FaultMeans(entries[i]);
    }
    if Distinct(Names(entries)) {
      forall i, j | 0 <= i < j < |entries| ensures entries[i].name != entries[j].name {
        assert Names(entries)[i] != Names(entries)[j];
      }
    }
  }

  // A relative path without backslashes and double dots, not a symbolic link, and, if it
  // is the manifest, UTF-8 text.
  predicate EntryIsAccepted(e: Entry) {
    && e.name != "" && '\\' !in e.name && e.name[0] != '/' && ".." !in Components(e.name)
    && e.attributes / 65536 % 65536 / 4096 != 10
    && (e.name == "META-INF/MANIFEST.MF" ==> Utf8.Decode(e.contents).Some?)
  }

  lemma {:induction false} FaultMeans(e: Entry)
    ensures Fault(e).None? <==> EntryIsAccepted(e)
  {
    hide Unsafe, Components, Utf8.Decode, Utf8.Encode, Manifest.Normalized;
    OnlyDoubleDotsAreRefused(e.name);
  }

  // What each entry of the canonical form is.
  lemma {:induction false} NormalEntries(entries: seq<Entry>, stored: bool, out: seq<Entry>, k: nat)
    requires Acceptable(entries) && IsNormalForm(entries, stored, out) && k < |out|
    ensures NormalAttributes(out[k], stored)
    ensures exists i :: 0 <= i < |entries| && KeepsFile(entries[i], out[k])
  {
    hide Fault, Rewrite, KeepsFile;
    assert ComesFrom(out[k], entries, stored);
    var i :| 0 <= i < |entries| && out[k] == Rewrite(entries[i], stored);
    RewriteKeepsFile(entries[i], stored);
    RewrittenAttributes(entries[i], stored);
  }

  lemma {:induction false} RewrittenAttributes(e: Entry, stored: bool)
    requires Fault(e).None?
    ensures NormalAttributes(Rewrite(e, stored), stored)
  {
    hide NormalContents, Unsafe;
  }

  predicate NormalAttributes(e: Entry, stored: bool) {
    var directory := e.name != "" && e.name[|e.name| - 1] == '/';
    var mode := e.attributes / 65536;
    && e.attributes % 65536 == 0
    // A directory or a regular file, readable by all and writable by its owner.
    && mode / 4096 == (if directory then 4 else 8)
    && mode / 512 % 8 == 0 && mode / 64 % 8 / 2 == 3 && mode / 8 % 8 / 2 == 2 && mode % 8 / 2 == 2
    // Executable for all or for none.
    && mode / 64 % 2 == mode / 8 % 2 == mode % 2
    && (mode % 2 == 1 <==> directory || e.name == "bootstrap")
    && (e.compression == Stored <==> stored || directory)
    && (e.compression == Deflated <==> !stored && !directory)
    && e.system == 3
    && e.time == (if |e.name| >= 6 && e.name[|e.name| - 6..] == ".class" then 2 else 0)
  }

  // The same name with the same contents, or the canonical text of the manifest.
  predicate KeepsFile(e: Entry, rewritten: Entry) {
    && rewritten.name == e.name
    && if e.name != "META-INF/MANIFEST.MF" then rewritten.contents == e.contents
       else
         var text := Utf8.Decode(e.contents);
         text.Some? && rewritten.contents == Utf8.Encode(Manifest.Normalized(text.value))
  }

  lemma {:induction false} RewriteKeepsFile(e: Entry, stored: bool)
    requires Fault(e).None?
    ensures KeepsFile(e, Rewrite(e, stored))
  {
    hide Unsafe, Utf8.Decode, Utf8.Encode, Manifest.Normalized;
  }
}
