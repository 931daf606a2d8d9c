// Expanding the resource tree over a relationship graph that may have cycles. A
// node whose key is among its ancestors is shown, marked and not expanded.
module Ancestry {

  datatype Resource = Resource(kind: string, id: string)

  function Key(r: Resource): string { r.kind + ":" + r.id }

  // The resources listed under each resource, over all its child paths in order.
  datatype Graph = Graph(related: map<Resource, seq<Resource>>)
  {
    function Children(r: Resource): seq<Resource> {
      if r in related then related[r] else []
    }

    function Keys(): set<string> {
      set r | r in related :: Key(r)
    }
  }

  datatype Tree = Node(resource: Resource, cycle: bool, children: seq<Tree>)

  // The fully expanded tree under a resource.
  function Expand(g: Graph, r: Resource, ancestry: set<string>): Tree
    decreases |g.Keys() - ancestry|, 1
  {
    if Key(r) in ancestry then Node(r, true, [])
    else if g.Children(r) == [] then Node(r, false, [])
    else
      Smaller(g, r, ancestry);
      Node(r, false, ExpandAll(g, g.Children(r), ancestry + {Key(r)}))
  }

  function ExpandAll(g: Graph, rs: seq<Resource>, ancestry: set<string>): (trees: seq<Tree>)
    ensures |trees| == |rs|
    ensures forall i :: 0 <= i < |rs| ==> trees[i] == Expand(g, rs[i], ancestry)
    decreases |g.Keys() - ancestry|, 2, |rs|
  {
    if rs == [] then [] else [Expand(g, rs[0], ancestry)] + ExpandAll(g, rs[1..], ancestry)
  }

  lemma {:induction false} Smaller(g: Graph, r: Resource, ancestry: set<string>)
    requires r in g.related && Key(r) !in ancestry
    ensures |g.Keys() - (ancestry + {Key(r)})| < |g.Keys() - ancestry|
  {
    var before, after := g.Keys() - ancestry, g.Keys() - (ancestry + {Key(r)});
    assert Key(r) in before && before == after + {Key(r)};
  }

  // The other explorer keeps its ancestors in a list.
  function ExpandList(g: Graph, r: Resource, ancestors: seq<string>): Tree
    decreases |g.Keys() - Elements(ancestors)|, 1
  {
    if Key(r) in ancestors then Node(r, true, [])
    else if g.Children(r) == [] then Node(r, false, [])
    else
      Smaller(g, r, Elements(ancestors));
      ElementsAppend(ancestors, Key(r));
      Node(r, false, ExpandListAll(g, g.Children(r), ancestors + [Key(r)]))
  }

  function ExpandListAll(g: Graph, rs: seq<Resource>, ancestors: seq<string>): seq<Tree>
    decreases |g.Keys() - Elements(ancestors)|, 2, |rs|
  {
    if rs == [] then [] else [ExpandList(g, rs[0], ancestors)] + ExpandListAll(g, rs[1..], ancestors)
  }

  function Elements(s: seq<string>): set<string> { set x | x in s }

  lemma {:induction false} ElementsAppend(s: seq<string>, x: string)
    ensures Elements(s + [x]) == Elements(s) + {x}
  {
  }

  // Both explorers build the same tree.
  lemma {:induction false} ExplorersAgree(g: Graph, r: Resource, ancestors: seq<string>)
    ensures ExpandList(g, r, ancestors) == Expand(g, r, Elements(ancestors))
    decreases |g.Keys() - Elements(ancestors)|, 1
  {
    if Key(r) !in ancestors && g.Children(r) != [] {
      Smaller(g, r, Elements(ancestors));
      ElementsAppend(ancestors, Key(r));
      ExplorersAgreeAll(g, g.Children(r), ancestors + [Key(r)]);
    }
  }

  lemma {:induction false} ExplorersAgreeAll(g: Graph, rs: seq<Resource>, ancestors: seq<string>)
    ensures ExpandListAll(g, rs, ancestors) == ExpandAll(g, rs, Elements(ancestors))
    decreases |g.Keys() - Elements(ancestors)|, 2, |rs|
  {
    if rs != [] {
      ExplorersAgree(g, rs[0], ancestors);
      ExplorersAgreeAll(g, rs[1..], ancestors);
    }
  }

  // ---------- Paths of the tree ----------

  // A path from the root of the tree, given by the child taken at each node.
  predicate IsTreePath(t: Tree, turns: seq<nat>) {
    turns == [] || (turns[0] < |t.children| && IsTreePath(t.children[turns[0]], turns[1..]))
  }

  // The resources along a path.
  function Along(t: Tree, turns: seq<nat>): (path: seq<Resource>)
    requires IsTreePath(t, turns)
    ensures |path| == |turns| + 1 && path[0] == t.resource
  {
    [t.resource] + if turns == [] then [] else Along(t.children[turns[0]], turns[1..])
  }

  function End(t: Tree, turns: seq<nat>): Tree
    requires IsTreePath(t, turns)
  {
    if turns == [] then t else End(t.children[turns[0]], turns[1..])
  }

  lemma {:induction false} ExpandedChild(g: Graph, r: Resource, ancestry: set<string>, k: nat)
    requires k < |Expand(g, r, ancestry).children|
    ensures Key(r) !in ancestry && r in g.related && k < |g.related[r]|
    ensures Expand(g, r, ancestry).children[k] == Expand(g, g.related[r][k], ancestry + {Key(r)})
  {
  }

  // The keys of a list, in order, are new: none is in the set or met before.
  predicate AllNew(rs: seq<Resource>, known: set<string>) {
    rs == [] || (Key(rs[0]) !in known && AllNew(rs[1..], known + {Key(rs[0])}))
  }

  predicate KeysDistinct(rs: seq<Resource>) {
    forall i, j :: 0 <= i < j < |rs| ==> Key(rs[i]) != Key(rs[j])
  }

  predicate HasKey(rs: seq<Resource>, key: string) { exists i :: 0 <= i < |rs| && Key(rs[i]) == key }

  lemma {:induction false} AllNewMeans(rs: seq<Resource>, known: set<string>)
    ensures AllNew(rs, known) <==> KeysDistinct(rs) && forall i :: 0 <= i < |rs| ==> Key(rs[i]) !in known
  {
    hide Key;
    if rs != [] {
      var rest := rs[1..];
      AllNewMeans(rest, known + {Key(rs[0])});
      assert forall i :: 0 < i < |rs| ==> rs[i] == rest[i - 1];
      if AllNew(rs, known) {
        forall i, j | 0 <= i < j < |rs| ensures Key(rs[i]) != Key(rs[j]) {
          assert rs[j] == rest[j - 1];
          if i > 0 {
            assert rs[i] == rest[i - 1];
          }
        }
      }
      if KeysDistinct(rs) && forall i :: 0 <= i < |rs| ==> Key(rs[i]) !in known {
        assert forall i :: 0 <= i < |rest| ==> rest[i] == rs[i + 1];
      }
    }
  }

  lemma {:induction false} HasKeyStep(rs: seq<Resource>, key: string)
    requires rs != []
    ensures HasKey(rs, key) <==> Key(rs[0]) == key || HasKey(rs[1..], key)
  {
    hide Key;
    if HasKey(rs[1..], key) {
      var i :| 0 <= i < |rs[1..]| && Key(rs[1..][i]) == key;
      assert Key(rs[i + 1]) == key;
    }
    if HasKey(rs, key) && Key(rs[0]) != key {
      var i :| 0 <= i < |rs| && Key(rs[i]) == key;
      assert Key(rs[1..][i - 1]) == key;
    }
  }

  function Front(path: seq<Resource>): seq<Resource>
    requires path != []
  {
    path[..|path| - 1]
  }

  function Last(path: seq<Resource>): Resource
    requires path != []
  {
    path[|path| - 1]
  }

  lemma {:induction false} CycleIffMet(g: Graph, r: Resource, ancestry: set<string>, turns: seq<nat>)
    requires IsTreePath(Expand(g, r, ancestry), turns)
    ensures var t := Expand(g, r, ancestry);
            var path := Along(t, turns);
            && AllNew(Front(path), ancestry)
            && (End(t, turns).cycle <==> Key(Last(path)) in ancestry || HasKey(Front(path), Key(Last(path))))
            && (End(t, turns).cycle ==> End(t, turns).children == [])
    decreases |turns|
  {
    hide Expand, Key;
    CycleIffAncestor(g, r, ancestry);
    if turns != [] {
      ExpandedChild(g, r, ancestry, turns[0]);
      var t := Expand(g, r, ancestry);
      CycleIffMet(g, g.related[r][turns[0]], ancestry + {Key(r)}, turns[1..]);
      var path, rest := Along(t, turns), Along(t.children[turns[0]], turns[1..]);
      assert path == [r] + rest && Last(path) == Last(rest);
      assert Front(path)[1..] == Front(rest);
      HasKeyStep(Front(path), Key(Last(path)));
    }
  }

  // Along a path from the root no key repeats, except that the last one may: then,
  // and only then, its node is marked as a cycle, and the path goes no further.
  lemma {:induction false} KeysRepeatOnlyAtEnd(g: Graph, root: Resource, turns: seq<nat>)
    requires IsTreePath(Expand(g, root, {}), turns)
    ensures var t := Expand(g, root, {});
            var path := Along(t, turns);
            && KeysDistinct(Front(path))
            && (End(t, turns).cycle <==> HasKey(Front(path), Key(Last(path))))
            && (End(t, turns).cycle ==> End(t, turns).children == [])
  {
    hide Expand, Key;
    CycleIffMet(g, root, {}, turns);
    AllNewMeans(Front(Along(Expand(g, root, {}), turns)), {});
  }

  lemma {:induction false} CycleIffAncestor(g: Graph, r: Resource, ancestry: set<string>)
    ensures Expand(g, r, ancestry).cycle <==> Key(r) in ancestry
    ensures Expand(g, r, ancestry).cycle ==> Expand(g, r, ancestry).children == []
    ensures Expand(g, r, ancestry).resource == r
  {
  }

  // However the graph loops, no path takes more turns than there are resources
  // with anything listed under them.
  lemma {:induction false} DepthIsBounded(g: Graph, r: Resource, ancestry: set<string>, turns: seq<nat>)
    requires IsTreePath(Expand(g, r, ancestry), turns)
    ensures |turns| <= |g.Keys() - ancestry|
    decreases |turns|
  {
    hide Expand, Key;
    if turns != [] {
      ExpandedChild(g, r, ancestry, turns[0]);
      DepthIsBounded(g, g.related[r][turns[0]], ancestry + {Key(r)}, turns[1..]);
      Smaller(g, r, ancestry);
    }
  }

  // ---------- Everything reachable appears ----------

  // A walk of the graph: each resource is listed under the one before.
  predicate IsWalk(g: Graph, walk: seq<Resource>) {
    && walk != []
    && forall i :: 0 <= i < |walk| - 1 ==> walk[i] in g.related && walk[i + 1] in g.related[walk[i]]
  }

  // Some path of the tree leads to an unmarked node of this resource.
  predicate Appears(t: Tree, r: Resource) {
    (t.resource == r && !t.cycle) || exists k :: 0 <= k < |t.children| && Appears(t.children[k], r)
  }

  // A walk whose keys are new is a path of the tree.
  lemma {:induction false} NewWalkAppears(g: Graph, walk: seq<Resource>, ancestry: set<string>)
    requires IsWalk(g, walk) && AllNew(walk, ancestry)
    ensures Appears(Expand(g, walk[0], ancestry), Last(walk))
    decreases |walk|
  {
    hide Key, Expand;
    CycleIffAncestor(g, walk[0], ancestry);
    if |walk| > 1 {
      var rest := walk[1..];
      assert walk[1] in g.related[walk[0]];
      var k :| 0 <= k < |g.related[walk[0]]| && g.related[walk[0]][k] == walk[1];
      assert IsWalk(g, rest) by {
        assert forall i :: 0 <= i < |rest| ==> rest[i] == walk[i + 1];
      }
      NewWalkAppears(g, rest, ancestry + {Key(walk[0])});
      ListedChild(g, walk[0], ancestry, k);
      assert Last(rest) == Last(walk);
    }
  }

  lemma {:induction false} ListedChild(g: Graph, r: Resource, ancestry: set<string>, k: nat)
    requires Key(r) !in ancestry && r in g.related && k < |g.related[r]|
    ensures k < |Expand(g, r, ancestry).children|
    ensures Expand(g, r, ancestry).children[k] == Expand(g, g.related[r][k], ancestry + {Key(r)})
  {
  }

  // A walk between two resources on which no key repeats.
  predicate IsKeyPath(g: Graph, walk: seq<Resource>, root: Resource, r: Resource) {
    IsWalk(g, walk) && walk[0] == root && Last(walk) == r && KeysDistinct(walk)
  }

  // An unmarked node of the tree is at the end of a walk whose keys are new.
  lemma {:induction false} AppearsHasWalk(g: Graph, root: Resource, ancestry: set<string>, r: Resource)
    returns (walk: seq<Resource>)
    requires Appears(Expand(g, root, ancestry), r)
    ensures IsWalk(g, walk) && walk[0] == root && Last(walk) == r && AllNew(walk, ancestry)
    decreases |g.Keys() - ancestry|
  {
    hide Key, Expand;
    var t := Expand(g, root, ancestry);
    CycleIffAncestor(g, root, ancestry);
    if t.resource == r && !t.cycle {
      walk := [root];
    } else {
      var k :| 0 <= k < |t.children| && Appears(t.children[k], r);
      ExpandedChild(g, root, ancestry, k);
      Smaller(g, root, ancestry);
      var rest := AppearsHasWalk(g, g.related[root][k], ancestry + {Key(root)}, r);
      walk := [root] + rest;
      assert walk[1..] == rest && Last(walk) == Last(rest);
    }
  }

  // A resource appears in the tree exactly when some walk from the root leads to it
  // without repeating a key; so nothing unreachable appears, and what is reachable
  // is hidden exactly when every walk to it meets a key twice.
  lemma {:induction false} AppearsIffKeyPath(g: Graph, root: Resource, r: Resource)
    ensures Appears(Expand(g, root, {}), r) <==> exists walk :: IsKeyPath(g, walk, root, r)
  {
    hide Expand, Appears, IsWalk;
    if Appears(Expand(g, root, {}), r) {
      var walk := AppearsHasWalk(g, root, {}, r);
      AllNewMeans(walk, {});
      assert IsKeyPath(g, walk, root, r);
    }
    if walk :| IsKeyPath(g, walk, root, r) {
      AllNewMeans(walk, {});
      NewWalkAppears(g, walk, {});
    }
  }

  // Cutting a loop out of a walk leaves a walk between the same ends.
  lemma {:induction false} CutLoop(g: Graph, walk: seq<Resource>, i: nat, j: nat) returns (shorter: seq<Resource>)
    requires IsWalk(g, walk) && i < j < |walk| && walk[i] == walk[j]
    ensures IsWalk(g, shorter) && |shorter| < |walk|
    ensures shorter[0] == walk[0] && Last(shorter) == Last(walk)
  {
    shorter := walk[..i] + walk[j..];
    forall k | 0 <= k < |shorter| - 1
      ensures shorter[k] in g.related && shorter[k + 1] in g.related[shorter[k]]
    {
      if k + 1 < i {
        assert shorter[k] == walk[k] && shorter[k + 1] == walk[k + 1];
      } else if k + 1 == i {
        assert shorter[k] == walk[k] && shorter[k + 1] == walk[j] == walk[i];
      } else {
        assert shorter[k] == walk[k - i + j] && shorter[k + 1] == walk[k - i + j + 1];
      }
    }
  }

  // ---------- When kinds hold no colon ----------

  function FirstColon(s: string): nat {
    if s == "" || s[0] == ':' then 0 else 1 + FirstColon(s[1..])
  }

  lemma {:induction false} ColonEndsKind(kind: string, id: string)
    requires ':' !in kind
    ensures FirstColon(kind + ":" + id) == |kind|
  {
    if kind == "" {
      assert kind + ":" + id == ":" + id;
    } else {
      ColonEndsKind(kind[1..], id);
      assert (kind + ":" + id)[1..] == kind[1..] + ":" + id;
    }
  }

  lemma {:induction false} KeyTellsResource(r: Resource, s: Resource)
    requires ':' !in r.kind && ':' !in s.kind && Key(r) == Key(s)
    ensures r == s
  {
    ColonEndsKind(r.kind, r.id);
    ColonEndsKind(s.kind, s.id);
    assert Key(r)[..|r.kind|] == r.kind && Key(s)[..|s.kind|] == s.kind;
    assert Key(r)[|r.kind| + 1..] == r.id && Key(s)[|s.kind| + 1..] == s.id;
  }

  predicate PlainKinds(g: Graph) {
    && (forall r :: r in g.related ==> ':' !in r.kind)
    && (forall r, k :: r in g.related && 0 <= k < |g.related[r]| ==> ':' !in g.related[r][k].kind)
  }

  lemma {:induction false} PlainWalk(g: Graph, walk: seq<Resource>, i: nat)
    requires PlainKinds(g) && IsWalk(g, walk) && ':' !in walk[0].kind && i < |walk|
    ensures ':' !in walk[i].kind
  {
    if i > 0 {
      assert walk[i] in g.related[walk[i - 1]];
    }
  }

  // Without colons every walk can be shortened to one on which no key repeats.
  lemma {:induction false} ShortestWalk(g: Graph, walk: seq<Resource>) returns (shorter: seq<Resource>)
    requires PlainKinds(g) && IsWalk(g, walk) && ':' !in walk[0].kind
    ensures IsKeyPath(g, shorter, walk[0], Last(walk))
    decreases |walk|
  {
    hide Key, PlainKinds;
    if i, j :| 0 <= i < j < |walk| && walk[i] == walk[j] {
      var cut := CutLoop(g, walk, i, j);
      shorter := ShortestWalk(g, cut);
    } else {
      forall i, j | 0 <= i < j < |walk| ensures Key(walk[i]) != Key(walk[j]) {
        PlainWalk(g, walk, i);
        PlainWalk(g, walk, j);
        if Key(walk[i]) == Key(walk[j]) {
          KeyTellsResource(walk[i], walk[j]);
        }
      }
      shorter := walk;
    }
  }

  // The last resource of any walk from the root appears, unmarked, in the tree.
  lemma {:induction false} ReachableAppears(g: Graph, walk: seq<Resource>)
    requires PlainKinds(g) && IsWalk(g, walk) && ':' !in walk[0].kind
    ensures Appears(Expand(g, walk[0], {}), Last(walk))
  {
    hide Expand, Appears, PlainKinds, IsKeyPath;
    var shorter := ShortestWalk(g, walk);
    AppearsIffKeyPath(g, walk[0], Last(walk));
  }

  // With a colon in a kind two resources can share a key, and the cut can then hide
  // what is reachable: here the child is taken for its own parent.
  lemma {:induction false} SharedKeyHidesResources()
    ensures var parent, child, grandchild := Resource("a", "b:c"), Resource("a:b", "c"), Resource("s", "1");
            var g := Graph(map[parent := [child], child := [grandchild]]);
            && Key(parent) == Key(child)
            && IsWalk(g, [parent, child, grandchild])
            && !Appears(Expand(g, parent, {}), grandchild)
  {
    var parent, child, grandchild := Resource("a", "b:c"), Resource("a:b", "c"), Resource("s", "1");
    var g := Graph(map[parent := [child], child := [grandchild]]);
    assert Key(parent) == "a:b:c" && Key(child) == "a:b:c";
    var t := Expand(g, parent, {});
    assert t.children == [Expand(g, child, {Key(parent)})];
    assert Expand(g, child, {Key(parent)}) == Node(child, true, []);
  }
}
