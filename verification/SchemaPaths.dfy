// The inverse index of a schema: from a subject type to the relations that it can enter.
module SchemaPaths {

  datatype Relation = Relation(name: string, subjectTypes: seq<string>)
  datatype SchemaType = SchemaType(name: string, relations: seq<Relation>)
  datatype Link = Link(source: string, target: string, relation: string)
  datatype Path = Path(resourceType: string, relation: string)

  // ---------- The links of a schema, forward ----------

  function RelationLinks(source: string, r: Relation, n: nat): seq<Link>
    requires n <= |r.subjectTypes|
  {
    if n == 0 then [] else RelationLinks(source, r, n - 1) + [Link(source, r.subjectTypes[n - 1], r.name)]
  }

  function TypeLinks(t: SchemaType, n: nat): seq<Link>
    requires n <= |t.relations|
  {
    if n == 0 then []
    else TypeLinks(t, n - 1) + RelationLinks(t.name, t.relations[n - 1], |t.relations[n - 1].subjectTypes|)
  }

  function Links(types: seq<SchemaType>, n: nat): seq<Link>
    requires n <= |types|
  {
    if n == 0 then [] else Links(types, n - 1) + TypeLinks(types[n - 1], |types[n - 1].relations|)
  }

  // ---------- The inverse ----------

  function Lookup(index: map<string, seq<Path>>, target: string): seq<Path> {
    if target in index then index[target] else []
  }

  function Add(index: map<string, seq<Path>>, link: Link): map<string, seq<Path>> {
    index[link.target := Lookup(index, link.target) + [Path(link.source, link.relation)]]
  }

  function Index(links: seq<Link>): map<string, seq<Path>> {
    if links == [] then map[] else Add(Index(links[..|links| - 1]), links[|links| - 1])
  }

  // The links into one type, in order.
  function PathsTo(links: seq<Link>, target: string): seq<Path> {
    if links == [] then []
    else
      var link := links[|links| - 1];
      PathsTo(links[..|links| - 1], target) + if link.target == target then [Path(link.source, link.relation)] else []
  }

  lemma {:induction false} IndexIs(links: seq<Link>, target: string)
    ensures Lookup(Index(links), target) == PathsTo(links, target)
    ensures target in Index(links) <==> PathsTo(links, target) != []
  {
    if links != [] {
      IndexIs(links[..|links| - 1], target);
    }
  }

  lemma {:induction false} IndexAppend(links: seq<Link>, link: Link)
    ensures Index(links + [link]) == Add(Index(links), link)
  {
    assert (links + [link])[..|links|] == links;
  }

  method ChildPaths(types: seq<SchemaType>) returns (paths: map<string, seq<Path>>)
    ensures forall target :: target in paths <==> PathsTo(Links(types, |types|), target) != []
    ensures forall target :: target in paths ==> paths[target] == PathsTo(Links(types, |types|), target)
  {
    hide PathsTo, Index, Add;
    paths := map[];
    IndexOfNothing();
    for i := 0 to |types|
      invariant paths == Index(Links(types, i))
    {
      var t := types[i];
      assert Links(types, i) + TypeLinks(t, 0) == Links(types, i);
      for j := 0 to |t.relations|
        invariant paths == Index(Links(types, i) + TypeLinks(t, j))
      {
        var r := t.relations[j];
        var before := Links(types, i) + TypeLinks(t, j);
        assert before + RelationLinks(t.name, r, 0) == before;
        for k := 0 to |r.subjectTypes|
          invariant paths == Index(before + RelationLinks(t.name, r, k))
        {
          var link := Link(t.name, r.subjectTypes[k], r.name);
          IndexAppend(before + RelationLinks(t.name, r, k), link);
          assert before + RelationLinks(t.name, r, k + 1) == before + RelationLinks(t.name, r, k) + [link];
          AddIs(paths, link);
          paths := paths[link.target := Lookup(paths, link.target) + [Path(t.name, r.name)]];
        }
        assert Links(types, i) + TypeLinks(t, j + 1) == before + RelationLinks(t.name, r, |r.subjectTypes|);
      }
    }
    forall target
      ensures target in paths <==> PathsTo(Links(types, |types|), target) != []
      ensures target in paths ==> paths[target] == PathsTo(Links(types, |types|), target)
    {
      IndexIs(Links(types, |types|), target);
    }
  }

  lemma {:induction false} IndexOfNothing()
    ensures Index([]) == map[]
  {
  }

  lemma {:induction false} AddIs(index: map<string, seq<Path>>, link: Link)
    ensures Add(index, link) == index[link.target := Lookup(index, link.target) + [Path(link.source, link.relation)]]
  {
  }

  // Every link is found under its target, as often as the schema states it, and nothing
  // else is.
  lemma {:induction false} PathsMirrorLinks(links: seq<Link>, source: string, target: string, relation: string)
    ensures multiset(PathsTo(links, target))[Path(source, relation)] == multiset(links)[Link(source, target, relation)]
  {
    if links != [] {
      var rest, link := links[..|links| - 1], links[|links| - 1];
      PathsMirrorLinks(rest, source, target, relation);
      CountLast(rest, link, Link(source, target, relation));
      assert links == rest + [link];
      if link.target == target {
        CountLast(PathsTo(rest, target), Path(link.source, link.relation), Path(source, relation));
      } else {
        assert PathsTo(links, target) == PathsTo(rest, target);
      }
    }
  }

  lemma {:induction false} CountLast<T>(s: seq<T>, last: T, x: T)
    ensures multiset(s + [last])[x] == multiset(s)[x] + if last == x then 1 else 0
  {
  }

  // A link is in the list exactly when the schema's type has a relation that allows its
  // target.
  lemma {:induction false} LinksAre(types: seq<SchemaType>, n: nat, link: Link)
    requires n <= |types|
    ensures link in Links(types, n)
       <==> exists i, j :: 0 <= i < n && 0 <= j < |types[i].relations| && Allows(types[i], j, link)
  {
    if n > 0 {
      LinksAre(types, n - 1, link);
      TypeLinksAre(types[n - 1], |types[n - 1].relations|, link);
    }
  }

  predicate Allows(t: SchemaType, j: nat, link: Link)
    requires j < |t.relations|
  {
    link.source == t.name && link.relation == t.relations[j].name && link.target in t.relations[j].subjectTypes
  }

  lemma {:induction false} TypeLinksAre(t: SchemaType, n: nat, link: Link)
    requires n <= |t.relations|
    ensures link in TypeLinks(t, n) <==> exists j :: 0 <= j < n && Allows(t, j, link)
  {
    if n > 0 {
      TypeLinksAre(t, n - 1, link);
      RelationLinksAre(t.name, t.relations[n - 1], |t.relations[n - 1].subjectTypes|, link);
      var r := t.relations[n - 1];
      assert r.subjectTypes[..|r.subjectTypes|] == r.subjectTypes;
      assert Allows(t, n - 1, link) <==> link in RelationLinks(t.name, r, |r.subjectTypes|);
    }
  }

  lemma {:induction false} RelationLinksAre(source: string, r: Relation, n: nat, link: Link)
    requires n <= |r.subjectTypes|
    ensures link in RelationLinks(source, r, n)
       <==> link.source == source && link.relation == r.name && link.target in r.subjectTypes[..n]
  {
    if n > 0 {
      RelationLinksAre(source, r, n - 1, link);
      assert r.subjectTypes[..n] == r.subjectTypes[..n - 1] + [r.subjectTypes[n - 1]];
    }
  }
}
