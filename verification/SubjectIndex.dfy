// The offset index that the profile API lays over a cursor service for subjects.
//
// The index is a map from page size to an inner map from offset to cursor. Calls
// hold on to their inner map while they wait, so inner maps have an identity: a
// position in `store`. Clearing the index drops the inner maps, not their contents.
module SubjectIndex {
  import opened Wrappers

  type Item = string

  // A token of the service. Its parts are what the service encodes in it (the list
  // it was made for and a position) and when it was asked for (the clears before).
  datatype Cursor = Cursor(version: nat, position: nat, epoch: nat)

  // A list call that waits for its page.
  datatype Request = Request(
    inner: nat, limit: nat, offset: nat, cursor: Option<Cursor>, epoch: nat, version: nat, waiting: bool)

  // A page; its end cursor is none when the service sent none.
  datatype Page = Page(items: seq<Item>, hasNext: bool, endPosition: Option<nat>)

  // `births` tells for each inner map how many clears had happened when it was made.
  // `list` is the list the service holds; `version` counts its changes and
  // `clearedAt` is the version at the last clear.
  datatype State = State(
    live: map<nat, nat>,
    store: seq<map<int, Option<Cursor>>>,
    births: seq<nat>,
    requests: seq<Request>,
    clears: nat,
    list: seq<Item>,
    version: nat,
    clearedAt: nat)

  datatype Operation =
    | List(limit: nat, offset: nat)   // up to the request
    | Settle(id: nat, page: Page)     // the page has arrived
    | Fail(id: nat)                   // the request failed
    | Clear                           // a refresh or a finished seed
    | Change(list: seq<Item>)         // the service's list changes

  function Initial(list: seq<Item>): State {
    State(map[], [], [], [], 0, list, 0, 0)
  }

  // The inner map for a page size, made with its first page if there is none.
  function WithInner(s: State, limit: nat): State {
    if limit in s.live then s
    else s.(store := s.store + [map[0 := None]],
            births := s.births + [s.clears],
            live := s.live[limit := |s.store|])
  }

  // The call fails with "invalid-cursor" when the offset is not in the index.
  predicate Indexed(s: State, limit: nat, offset: int) {
    var t := WithInner(s, limit);
    t.live[limit] < |t.store| && offset in t.store[t.live[limit]]
  }

  function ListStep(s: State, limit: nat, offset: nat): State {
    var t := WithInner(s, limit);
    if !Indexed(s, limit, offset) then t
    else
      var inner := t.live[limit];
      t.(requests := t.requests + [Request(inner, limit, offset, t.store[inner][offset], t.clears, t.version, true)])
  }

  function SettleStep(s: State, id: nat, page: Page): State {
    if id >= |s.requests| || !s.requests[id].waiting || s.requests[id].inner >= |s.store| then s
    else
      var r := s.requests[id];
      var t := s.(requests := s.requests[id := r.(waiting := false)]);
      if !page.hasNext || page.endPosition.None? then t
      else
        var next := r.offset + |page.items|;
        var cursor := Cursor(s.version, page.endPosition.value, r.epoch);
        t.(store := t.store[r.inner := t.store[r.inner][next := Some(cursor)]])
  }

  function Step(s: State, op: Operation): State {
    match op
    case List(limit, offset) => ListStep(s, limit, offset)
    case Settle(id, page) => SettleStep(s, id, page)
    case Fail(id) =>
      if id < |s.requests| then s.(requests := s.requests[id := s.requests[id].(waiting := false)]) else s
    case Clear => s.(live := map[], clears := s.clears + 1, clearedAt := s.version)
    case Change(list) => s.(list := list, version := s.version + 1)
  }

  function Min(a: nat, b: nat): nat { if a < b then a else b }

  // The page of a list from a position, as the cursor service serves it.
  function PageAt(list: seq<Item>, position: nat, limit: nat): Page
    requires position <= |list|
  {
    var stop := Min(position + limit, |list|);
    Page(list[position..stop], stop < |list|, Some(stop))
  }

  // What the service may answer. Over a list that has not changed since the request
  // and since its cursor was made, it serves the page from the cursor's position;
  // over any other list nothing is known.
  predicate Legal(s: State, op: Operation) {
    match op
    case List(limit, offset) => limit >= 1
    case Settle(id, page) =>
      id < |s.requests| && s.requests[id].waiting ==>
        var r := s.requests[id];
        r.version == s.version && (r.cursor.Some? ==> r.cursor.value.version == s.version) ==>
          var position := if r.cursor.Some? then r.cursor.value.position else 0;
          position <= |s.list| ==> page == PageAt(s.list, position, r.limit)
    case _ => true
  }

  function Exec(list: seq<Item>, ops: seq<Operation>): State {
    if ops == [] then Initial(list) else Step(Exec(list, ops[..|ops| - 1]), ops[|ops| - 1])
  }

  predicate LegalRun(list: seq<Item>, ops: seq<Operation>) {
    forall i :: 0 <= i < |ops| ==> Legal(Exec(list, ops[..i]), ops[i])
  }

  // ---------- The closure as a class ----------

  class ProfileApi {
    var live: map<nat, nat>
    var store: seq<map<int, Option<Cursor>>>
    ghost var observed: State   // the rest of the world, as an observer sees it

    ghost predicate Valid()
      reads this
    {
      observed.live == live && observed.store == store
    }

    constructor (ghost list: seq<Item>)
      ensures Valid() && observed == Initial(list)
    {
      live, store, observed := map[], [], Initial(list);
    }

    // A list call up to its request: the inner map and the cursor it goes on with.
    method BeginList(limit: nat, offset: nat) returns (inner: nat, cursor: Option<Option<Cursor>>)
      requires Valid() && (limit in live ==> live[limit] < |store|)
      modifies this
      ensures Valid() && observed == Step(old(observed), List(limit, offset))
      ensures cursor.Some? <==> Indexed(old(observed), limit, offset)
      ensures limit in live && live[limit] == inner < |store|
      ensures cursor.Some? ==> offset in store[inner] && cursor.value == store[inner][offset]
    {
      observed := Step(observed, List(limit, offset));
      if limit !in live {
        store := store + [map[0 := None]];
        live := live[limit := |store| - 1];
      }
      inner := live[limit];
      cursor := if offset in store[inner] then Some(store[inner][offset]) else None;
    }

    // The rest of the call. The inner map it holds may no longer be in the index.
    method SettleList(ghost id: nat, inner: nat, offset: nat, page: Page, endCursor: Option<Cursor>)
      requires Valid() && inner < |store|
      requires id < |observed.requests| && observed.requests[id].waiting
      requires observed.requests[id].inner == inner && observed.requests[id].offset == offset
      requires endCursor == if page.endPosition.None? then None
                            else Some(Cursor(observed.version, page.endPosition.value, observed.requests[id].epoch))
      modifies this
      ensures Valid() && observed == Step(old(observed), Settle(id, page))
    {
      observed := Step(observed, Settle(id, page));
      if page.hasNext && endCursor.Some? {
        var next := offset + |page.items|;
        store := store[inner := store[inner][next := endCursor]];
      }
    }

    method ClearIndex()
      requires Valid()
      modifies this
      ensures Valid() && observed == Step(old(observed), Clear)
    {
      live := map[];
      observed := Step(observed, Clear);
    }
  }

  // ---------- Every interleaving ----------

  predicate Unchanged(s: State) { s.version == s.clearedAt }

  // An entry of an inner map born after `birth` clears.
  predicate EntryOk(s: State, birth: nat, offset: int, entry: Option<Cursor>) {
    && (entry.Some? ==> entry.value.epoch == birth && entry.value.version <= s.version)
    && (Unchanged(s) && birth == s.clears ==>
          offset <= |s.list|
          && (entry.None? ==> offset == 0)
          && (entry.Some? ==> entry.value.version == s.version && entry.value.position == offset))
  }

  predicate InnerOk(s: State, inner: nat)
    requires inner < |s.store| && inner < |s.births|
  {
    forall o :: o in s.store[inner] ==> EntryOk(s, s.births[inner], o, s.store[inner][o])
  }

  predicate RequestOk(s: State, r: Request) {
    && r.inner < |s.store| && r.inner < |s.births|
    && r.epoch == s.births[r.inner]
    && r.version <= s.version
    && r.limit >= 1
    && (r.epoch == s.clears ==> r.limit in s.live && s.live[r.limit] == r.inner && s.clearedAt <= r.version)
    && EntryOk(s, r.epoch, r.offset, r.cursor)
  }

  predicate Invariant(s: State) {
    && |s.births| == |s.store|
    && s.clearedAt <= s.version
    && (forall i :: 0 <= i < |s.births| ==> s.births[i] <= s.clears)
    && (forall limit :: limit in s.live ==> s.live[limit] < |s.store| && s.births[s.live[limit]] == s.clears)
    && (forall i :: 0 <= i < |s.store| ==> InnerOk(s, i))
    && (forall i :: 0 <= i < |s.requests| && s.requests[i].waiting ==> RequestOk(s, s.requests[i]))
  }

  lemma {:induction false} InnerKeeps(s: State, limit: nat)
    requires Invariant(s)
    ensures Invariant(WithInner(s, limit))
  {
    if limit !in s.live {
      var t := WithInner(s, limit);
      assert forall i :: 0 <= i < |s.store| ==> t.store[i] == s.store[i] && t.births[i] == s.births[i];
      forall i | 0 <= i < |t.store| ensures InnerOk(t, i) {
        if i < |s.store| {
          assert InnerOk(s, i);
        }
      }
      forall i | 0 <= i < |t.requests| && t.requests[i].waiting ensures RequestOk(t, t.requests[i]) {
        assert RequestOk(s, s.requests[i]);
      }
    }
  }

  lemma {:induction false} ListKeeps(s: State, limit: nat, offset: nat)
    requires Invariant(s) && limit >= 1
    ensures Invariant(ListStep(s, limit, offset))
  {
    InnerKeeps(s, limit);
    var t := WithInner(s, limit);
    if Indexed(s, limit, offset) {
      var u := ListStep(s, limit, offset);
      assert InnerOk(t, t.live[limit]);
      forall i | 0 <= i < |u.store| ensures InnerOk(u, i) {
        assert InnerOk(t, i);
      }
      forall i | 0 <= i < |u.requests| && u.requests[i].waiting ensures RequestOk(u, u.requests[i]) {
        if i < |t.requests| {
          assert RequestOk(t, t.requests[i]);
        }
      }
    }
  }

  // What a legal settlement brings, when the list has not changed since the clear
  // that the request came after.
  lemma {:induction false} SettledPage(s: State, id: nat, page: Page)
    requires Invariant(s) && Legal(s, Settle(id, page))
    requires id < |s.requests| && s.requests[id].waiting
    requires Unchanged(s) && s.requests[id].epoch == s.clears
    ensures var r := s.requests[id];
            r.offset <= |s.list| && page == PageAt(s.list, r.offset, r.limit)
  {
    assert RequestOk(s, s.requests[id]);
  }

  lemma {:induction false} SettleKeeps(s: State, id: nat, page: Page)
    requires Invariant(s) && Legal(s, Settle(id, page))
    ensures Invariant(SettleStep(s, id, page))
  {
    hide Legal;
    if id < |s.requests| && s.requests[id].waiting {
      var r, u := s.requests[id], SettleStep(s, id, page);
      assert RequestOk(s, r);
      assert InnerOk(s, r.inner);
      if Unchanged(s) && r.epoch == s.clears {
        SettledPage(s, id, page);
      }
      forall i | 0 <= i < |u.store| ensures InnerOk(u, i) {
        assert InnerOk(s, i);
      }
      forall i | 0 <= i < |u.requests| && u.requests[i].waiting ensures RequestOk(u, u.requests[i]) {
        assert RequestOk(s, s.requests[i]);
      }
    }
  }

  lemma {:induction false} OtherKeeps(s: State, op: Operation)
    requires Invariant(s) && (op.Fail? || op.Clear? || op.Change?)
    ensures Invariant(Step(s, op))
  {
    var u := Step(s, op);
    forall i | 0 <= i < |u.store| ensures InnerOk(u, i) {
      assert InnerOk(s, i);
    }
    forall i | 0 <= i < |u.requests| && u.requests[i].waiting ensures RequestOk(u, u.requests[i]) {
      assert RequestOk(s, s.requests[i]);
    }
  }

  lemma {:induction false} StepKeepsInvariant(s: State, op: Operation)
    requires Invariant(s) && Legal(s, op)
    ensures Invariant(Step(s, op))
  {
    hide Invariant;
    match op
    case List(limit, offset) => ListKeeps(s, limit, offset);
    case Settle(id, page) => SettleKeeps(s, id, page);
    case _ => OtherKeeps(s, op);
  }

  lemma {:induction false} ExecKeepsInvariant(list: seq<Item>, ops: seq<Operation>)
    requires LegalRun(list, ops)
    ensures Invariant(Exec(list, ops))
  {
    if ops != [] {
      hide Invariant, Step, Legal;
      var front := ops[..|ops| - 1];
      assert forall i :: 0 <= i < |front| ==> front[..i] == ops[..i] && front[i] == ops[i];
      ExecKeepsInvariant(list, front);
      StepKeepsInvariant(Exec(list, front), ops[|ops| - 1]);
    }
  }

  // In every interleaving of list calls, refreshes, finished seeds and list changes,
  // each cursor in the live index came from a request issued since the last clear.
  lemma {:induction false} LiveCursorsAreFresh(list: seq<Item>, ops: seq<Operation>, limit: nat, offset: nat)
    requires LegalRun(list, ops)
    requires limit in Exec(list, ops).live
    ensures var s := Exec(list, ops);
            s.live[limit] < |s.store| &&
            var inner := s.store[s.live[limit]];
            offset in inner && inner[offset].Some? ==> inner[offset].value.epoch == s.clears
  {
    ExecKeepsInvariant(list, ops);
    var s := Exec(list, ops);
    assert InnerOk(s, s.live[limit]);
  }

  // While the list stays as it was at the last clear, a call issued since then gets
  // exactly the items from its offset, and if there are more, the offset that comes
  // next is in the index for the same page size.
  lemma {:induction false} ServedSliceIsExact(list: seq<Item>, ops: seq<Operation>, id: nat, page: Page)
    requires LegalRun(list, ops) && Legal(Exec(list, ops), Settle(id, page))
    requires var s := Exec(list, ops);
             id < |s.requests| && s.requests[id].waiting && Unchanged(s) && s.requests[id].epoch == s.clears
    ensures var s := Exec(list, ops);
            var r := s.requests[id];
            && r.offset <= |s.list|
            && page.items == s.list[r.offset..Min(r.offset + r.limit, |s.list|)]
            && (page.hasNext <==> r.offset + |page.items| < |s.list|)
            && (page.hasNext ==> Indexed(Step(s, Settle(id, page)), r.limit, r.offset + |page.items|))
  {
    hide Exec, LegalRun, Legal, Invariant, Indexed, Step;
    ExecKeepsInvariant(list, ops);
    var s := Exec(list, ops);
    SettledPage(s, id, page);
    NextIsIndexed(s, id, page);
  }

  lemma {:induction false} NextIsIndexed(s: State, id: nat, page: Page)
    requires Invariant(s)
    requires id < |s.requests| && s.requests[id].waiting && s.requests[id].epoch == s.clears
    requires page.hasNext ==> page.endPosition.Some?
    ensures page.hasNext ==> Indexed(Step(s, Settle(id, page)), s.requests[id].limit, s.requests[id].offset + |page.items|)
  {
    assert RequestOk(s, s.requests[id]);
  }

  // An offset stays in the index until the index is cleared.
  lemma {:induction false} IndexedUntilClear(s: State, op: Operation, limit: nat, offset: int)
    requires Invariant(s) && Indexed(s, limit, offset) && !op.Clear?
    ensures Indexed(Step(s, op), limit, offset)
  {
  }

  // After a clear the index knows the first page of any page size, and no other.
  lemma {:induction false} ClearStartsOver(s: State, limit: nat, offset: int)
    requires Invariant(s)
    ensures var u := Step(s, Clear);
            && u.live == map[] && u.store == s.store && u.requests == s.requests
            && Unchanged(u) && u.clears > s.clears
            && (Indexed(u, limit, offset) <==> offset == 0)
  {
  }

  // A call for an offset in the index goes out with the cursor that was found there, and
  // none for the first page; any other call does not go out.
  lemma {:induction false} CallGoesOut(s: State, limit: nat, offset: nat)
    requires Invariant(s)
    ensures var u := Step(s, List(limit, offset));
            if !Indexed(s, limit, offset) then u.requests == s.requests
            else
              && |u.requests| == |s.requests| + 1 && u.requests[..|s.requests|] == s.requests
              && var r := u.requests[|s.requests|];
                 && r.waiting && r.limit == limit && r.offset == offset && r.epoch == s.clears
                 && limit in u.live && r.inner == u.live[limit] < |u.store|
                 && offset in u.store[r.inner] && r.cursor == u.store[r.inner][offset]
                 && (limit !in s.live ==> offset == 0 && r.cursor.None?)
                 && (Unchanged(s) ==> (r.cursor.None? ==> offset == 0) && (r.cursor.Some? ==> r.cursor.value.position == offset))
  {
    InnerKeeps(s, limit);
    var t := WithInner(s, limit);
    if Indexed(s, limit, offset) {
      assert InnerOk(t, t.live[limit]);
    }
  }

  // An answered call is over, and a page that has a next one is entered in the inner map
  // that the call holds, even if that has been cleared in between.
  lemma {:induction false} AnswerIsEntered(s: State, id: nat, page: Page)
    requires Invariant(s) && id < |s.requests| && s.requests[id].waiting
    ensures var r, u := s.requests[id], Step(s, Settle(id, page));
            && |u.requests| == |s.requests| && !u.requests[id].waiting && r.inner < |u.store| == |s.store| && u.live == s.live
            && (page.hasNext && page.endPosition.Some? ==>
                  var next := r.offset + |page.items|;
                  u.store[r.inner] == s.store[r.inner][next := Some(Cursor(s.version, page.endPosition.value, r.epoch))])
            && (!page.hasNext || page.endPosition.None? ==> u.store == s.store)
            && forall i :: 0 <= i < |s.store| && i != r.inner ==> u.store[i] == s.store[i]
  {
    assert RequestOk(s, s.requests[id]);
  }

  lemma {:induction false} ExecStep(list: seq<Item>, ops: seq<Operation>, k: nat)
    requires k < |ops|
    ensures Exec(list, ops[..k + 1]) == Step(Exec(list, ops[..k]), ops[k])
  {
    assert ops[..k + 1][..k] == ops[..k];
  }

  lemma {:induction false} PrefixIsLegal(list: seq<Item>, ops: seq<Operation>, n: nat)
    requires LegalRun(list, ops) && n <= |ops|
    ensures LegalRun(list, ops[..n])
  {
    hide Legal;
    forall i | 0 <= i < n ensures Legal(Exec(list, ops[..n][..i]), ops[..n][i]) {
      assert ops[..n][..i] == ops[..i];
    }
  }

  // Through a run without clears an offset stays in the index.
  lemma {:induction false} IndexedAlongRun(list: seq<Item>, ops: seq<Operation>, i: nat, j: nat, limit: nat, offset: int)
    requires LegalRun(list, ops) && i <= j <= |ops|
    requires forall k :: i <= k < j ==> !ops[k].Clear?
    requires Indexed(Exec(list, ops[..i]), limit, offset)
    ensures Indexed(Exec(list, ops[..j]), limit, offset)
    decreases j
  {
    hide Exec, Indexed, LegalRun, Step, Invariant;
    if i < j {
      IndexedAlongRun(list, ops, i, j - 1, limit, offset);
      PrefixIsLegal(list, ops, j - 1);
      ExecKeepsInvariant(list, ops[..j - 1]);
      ExecStep(list, ops, j - 1);
      IndexedUntilClear(Exec(list, ops[..j - 1]), ops[j - 1], limit, offset);
    }
  }

  // ---------- Following next offsets ----------

  // The page that a run settles a call with.
  datatype Serving = Serving(at: nat, id: nat, page: Page)

  // The call was for this offset and page size, was issued since the last clear, and the
  // list is the one of the last clear, which has this version.
  predicate Served(list: seq<Item>, ops: seq<Operation>, v: Serving, limit: nat, offset: nat, version: nat) {
    && v.at < |ops| && ops[v.at] == Settle(v.id, v.page)
    && var s := Exec(list, ops[..v.at]);
       && v.id < |s.requests| && s.requests[v.id].waiting
       && s.requests[v.id].limit == limit && s.requests[v.id].offset == offset
       && s.requests[v.id].epoch == s.clears
       && Unchanged(s) && s.version == version
  }

  // Each call is for the offset that the page before gave as its next, up to a page
  // without a next one. Anything may happen in the run between them.
  predicate Follows(list: seq<Item>, ops: seq<Operation>, vs: seq<Serving>, limit: nat, offset: nat, version: nat) {
    && vs != []
    && Served(list, ops, vs[0], limit, offset, version)
    && (vs[0].page.hasNext <==> |vs| > 1)
    && (|vs| > 1 ==> Follows(list, ops, vs[1..], limit, offset + |vs[0].page.items|, version))
  }

  function Items(vs: seq<Serving>): seq<Item> {
    if vs == [] then [] else vs[0].page.items + Items(vs[1..])
  }

  // A list has one version at a time.
  lemma {:induction false} VersionFixesList(list: seq<Item>, ops: seq<Operation>, i: nat, j: nat)
    requires i <= j <= |ops|
    ensures var s, u := Exec(list, ops[..i]), Exec(list, ops[..j]);
            s.version <= u.version && (s.version == u.version ==> s.list == u.list)
    decreases j
  {
    hide Exec;
    if i < j {
      VersionFixesList(list, ops, i, j - 1);
      ExecStep(list, ops, j - 1);
    }
  }

  lemma {:induction false} ServedIsSlice(
    list: seq<Item>, ops: seq<Operation>, v: Serving, limit: nat, offset: nat, version: nat)
    requires LegalRun(list, ops) && Served(list, ops, v, limit, offset, version)
    ensures var current := Exec(list, ops[..v.at]).list;
            && offset <= |current|
            && v.page.items == current[offset..Min(offset + limit, |current|)]
            && (v.page.hasNext <==> offset + |v.page.items| < |current|)
    ensures v.page.hasNext ==> Indexed(Exec(list, ops[..v.at + 1]), limit, offset + |v.page.items|)
  {
    hide Exec, Legal, Indexed, Step;
    PrefixIsLegal(list, ops, v.at);
    ServedSliceIsExact(list, ops[..v.at], v.id, v.page);
    ExecStep(list, ops, v.at);
  }

  // A call for the next offset of a served page is not refused unless the index has been
  // cleared in between.
  lemma {:induction false} NextCallProceeds(
    list: seq<Item>, ops: seq<Operation>, v: Serving, limit: nat, offset: nat, version: nat, j: nat)
    requires LegalRun(list, ops) && Served(list, ops, v, limit, offset, version) && v.page.hasNext
    requires v.at < j <= |ops| && forall k :: v.at < k < j ==> !ops[k].Clear?
    ensures Indexed(Exec(list, ops[..j]), limit, offset + |v.page.items|)
  {
    hide Exec, LegalRun, Indexed, Served;
    ServedIsSlice(list, ops, v, limit, offset, version);
    IndexedAlongRun(list, ops, v.at + 1, j, limit, offset + |v.page.items|);
  }

  lemma {:induction false} SameList(list: seq<Item>, ops: seq<Operation>, i: nat, j: nat)
    requires i <= |ops| && j <= |ops| && Exec(list, ops[..i]).version == Exec(list, ops[..j]).version
    ensures Exec(list, ops[..i]).list == Exec(list, ops[..j]).list
  {
    hide Exec;
    if i <= j {
      VersionFixesList(list, ops, i, j);
    } else {
      VersionFixesList(list, ops, j, i);
    }
  }

  lemma {:induction false} SliceOn(list: seq<Item>, offset: nat, n: nat)
    requires offset + n <= |list|
    ensures list[offset..offset + n] + list[offset + n..] == list[offset..]
  {
  }

  // The pages of calls that follow the next offsets, in whatever run, hold the rest of
  // the list once and in order; from offset 0, the whole list.
  lemma {:induction false} FollowingCoversOnce(
    list: seq<Item>, ops: seq<Operation>, vs: seq<Serving>, limit: nat, offset: nat, version: nat)
    requires LegalRun(list, ops) && Follows(list, ops, vs, limit, offset, version)
    ensures var current := Exec(list, ops[..vs[0].at]).list;
            offset <= |current| && Items(vs) == current[offset..]
  {
    hide Exec, LegalRun, Indexed;
    ServedIsSlice(list, ops, vs[0], limit, offset, version);
    var current := Exec(list, ops[..vs[0].at]).list;
    if |vs| > 1 {
      FollowingCoversOnce(list, ops, vs[1..], limit, offset + |vs[0].page.items|, version);
      SameList(list, ops, vs[0].at, vs[1].at);
      SliceOn(current, offset, |vs[0].page.items|);
    } else {
      assert vs[1..] == [];
      assert vs[0].page.items + [] == vs[0].page.items;
    }
  }
}
