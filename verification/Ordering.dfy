// Sorting names by their characters.
module Ordering {

  predicate Leq(a: string, b: string) {
    a == "" || (b != "" && (a[0] < b[0] || (a[0] == b[0] && Leq(a[1..], b[1..]))))
  }

  lemma {:induction false} LeqTotal(a: string, b: string)
    ensures Leq(a, b) || Leq(b, a)
    ensures Leq(a, a)
  {
    if a != "" {
      LeqTotal(a[1..], if b == "" then "" else b[1..]);
    }
  }

  lemma {:induction false} LeqAntisymmetric(a: string, b: string)
    requires Leq(a, b) && Leq(b, a)
    ensures a == b
  {
    if a != "" {
      LeqAntisymmetric(a[1..], b[1..]);
      assert a == [a[0]] + a[1..] && b == [b[0]] + b[1..];
    }
  }

  lemma {:induction false} LeqTransitive(a: string, b: string, c: string)
    requires Leq(a, b) && Leq(b, c)
    ensures Leq(a, c)
  {
    if a != "" && a[0] == b[0] == c[0] {
      LeqTransitive(a[1..], b[1..], c[1..]);
    }
  }

  predicate Less(a: string, b: string) { Leq(a, b) && a != b }

  predicate Ascending(s: seq<string>) { forall i, j :: 0 <= i < j < |s| ==> Leq(s[i], s[j]) }

  predicate StrictlyAscending(s: seq<string>) { forall i, j :: 0 <= i < j < |s| ==> Less(s[i], s[j]) }

  function Insert(x: string, s: seq<string>): seq<string> {
    if s == [] || Leq(x, s[0]) then [x] + s else [s[0]] + Insert(x, s[1..])
  }

  // sorted(names)
  function Sort(s: seq<string>): seq<string> {
    if s == [] then [] else Insert(s[0], Sort(s[1..]))
  }

  function SetOf(s: seq<string>): set<string> { set x | x in s }

  predicate Distinct(s: seq<string>) { forall i, j :: 0 <= i < j < |s| ==> s[i] != s[j] }

  lemma {:induction false} InsertKeeps(x: string, s: seq<string>)
    ensures |Insert(x, s)| == |s| + 1
    ensures forall y :: y in Insert(x, s) <==> y == x || y in s
  {
    if s != [] && !Leq(x, s[0]) {
      InsertKeeps(x, s[1..]);
      assert s == [s[0]] + s[1..];
    }
  }

  lemma {:induction false} AscendingCons(x: string, s: seq<string>)
    requires Ascending(s)
    requires forall y :: y in s ==> Leq(x, y)
    ensures Ascending([x] + s)
  {
    var all := [x] + s;
    forall i, j | 0 <= i < j < |all| ensures Leq(all[i], all[j]) {
      assert all[j] == s[j - 1] && s[j - 1] in s;
    }
  }

  lemma {:induction false} InsertAscends(x: string, s: seq<string>)
    requires Ascending(s)
    ensures Ascending(Insert(x, s))
  {
    if s == [] {
    } else if Leq(x, s[0]) {
      forall y | y in s ensures Leq(x, y) {
        var k :| 0 <= k < |s| && s[k] == y;
        if k > 0 {
          LeqTransitive(x, s[0], y);
        }
      }
      AscendingCons(x, s);
    } else {
      InsertAscends(x, s[1..]);
      InsertKeeps(x, s[1..]);
      LeqTotal(x, s[0]);
      forall y | y in Insert(x, s[1..]) ensures Leq(s[0], y) {
        if y != x {
          var k :| 0 <= k < |s[1..]| && s[1..][k] == y;
          assert s[k + 1] == y;
        }
      }
      AscendingCons(s[0], Insert(x, s[1..]));
    }
  }

  // Sorting keeps the names and puts them in order.
  lemma {:induction false} SortSorts(s: seq<string>)
    ensures Ascending(Sort(s)) && |Sort(s)| == |s|
    ensures forall y :: y in Sort(s) <==> y in s
  {
    if s != [] {
      SortSorts(s[1..]);
      InsertAscends(s[0], Sort(s[1..]));
      InsertKeeps(s[0], Sort(s[1..]));
      assert s == [s[0]] + s[1..];
    }
  }

  // A list has as many different names as names exactly when no name repeats.
  lemma {:induction false} SizeTellsDistinct(s: seq<string>)
    ensures |SetOf(s)| <= |s|
    ensures |SetOf(s)| == |s| <==> Distinct(s)
  {
    if s == [] {
      assert SetOf(s) == {};
    } else {
      var rest, last := s[..|s| - 1], s[|s| - 1];
      SizeTellsDistinct(rest);
      assert s == rest + [last];
      assert SetOf(s) == SetOf(rest) + {last};
      if last in rest {
        var k :| 0 <= k < |rest| && rest[k] == last;
        assert s[k] == s[|s| - 1];
        assert SetOf(s) == SetOf(rest);
      } else {
        assert forall i :: 0 <= i < |rest| ==> s[i] == rest[i];
        if Distinct(rest) {
          forall i, j | 0 <= i < j < |s| ensures s[i] != s[j] {
            assert s[i] in rest;
          }
        }
        if Distinct(s) {
          forall i, j | 0 <= i < j < |rest| ensures rest[i] != rest[j] {
            assert s[i] != s[j];
          }
        }
      }
    }
  }

  // Sorting neither adds nor removes a repetition.
  lemma {:induction false} SortKeepsDistinct(s: seq<string>)
    ensures Distinct(Sort(s)) <==> Distinct(s)
    ensures Distinct(s) ==> StrictlyAscending(Sort(s))
  {
    SortSorts(s);
    SizeTellsDistinct(s);
    SizeTellsDistinct(Sort(s));
    assert SetOf(Sort(s)) == SetOf(s);
  }
}
