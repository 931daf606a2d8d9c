// What the design preview holds once its loads have been answered.
module PreviewAnswers {
  import opened Wrappers
  import opened Preview

  // ---------- Answers in time ----------

  // In any state that runs can reach, a successful answer to a load of this epoch is held
  // afterwards: rows and checks among the rows of its page, a count as its count.
  lemma {:induction false} GroupAnswerIsHeld(s: State, id: nat, answer: Answer)
    requires Invariant(s) && id < |s.groupLoads| && s.groupLoads[id].waiting && s.groupLoads[id].epoch == s.epoch
    requires answer.Arrived?
    ensures var load, u := s.groupLoads[id], Step(s, GroupAnswers(id, answer));
            load.page < |u.groupStore| &&
            var page := u.groupStore[load.page];
            && (!load.phase.RootCount? ==> s.params in page.rows)
            && (load.phase.RootCount? ==> page.counts == {s.params} && page.exact == answer.exact && !page.countError)
            && (page.loading == s.groupStore[load.page].loading || !page.loading)
            && (!u.groupLoads[id].waiting ==> !page.loading)
  {
    hide Holds, DecisionsOk, ReverseOk;
    assert GroupLoadOk(s, s.groupLoads[id]);
  }

  lemma {:induction false} CountAnswerIsHeld(s: State, id: nat, answer: Answer)
    requires Invariant(s) && id < |s.countLoads| && s.countLoads[id].waiting && CountIsLive(s, s.countLoads[id])
    requires answer.Arrived?
    ensures var load, u := s.countLoads[id], Step(s, CountAnswers(id, answer));
            load.page < |u.groupStore| &&
            var page := u.groupStore[load.page];
            && page.counts == {s.params} && page.exact == answer.exact && !page.countError && !page.countLoading
            && id < |u.countLoads| && !u.countLoads[id].waiting
  {
    hide Holds, DecisionsOk, ReverseOk;
    assert CountLoadOk(s, s.countLoads[id]);
  }

  lemma {:induction false} DecisionIsHeld(s: State, id: nat)
    requires Invariant(s) && id < |s.decisionLoads| && s.decisionLoads[id].waiting
    requires s.decisionLoads[id].token == s.inspectorEpoch && s.decisionLoads[id].epoch == s.epoch
    ensures Step(s, DecisionAnswers(id)).decisions == s.decisions + {s.decisionLoads[id].sent}
    ensures DecisionCurrent(s, s.decisionLoads[id].sent)
    ensures id < |Step(s, DecisionAnswers(id)).decisionLoads| && !Step(s, DecisionAnswers(id)).decisionLoads[id].waiting
  {
    hide GroupsOk, ReverseOk;
    assert DecisionLoadOk(s, s.decisionLoads[id]);
  }

  lemma {:induction false} ReverseAnswerIsHeld(s: State, id: nat, ok: bool)
    requires Invariant(s) && id < |s.reverseLoads| && s.reverseLoads[id].waiting
    requires s.reverseLoads[id].token == s.inspectorEpoch && s.reverseLoads[id].epoch == s.epoch
    requires s.reverse == Some(s.reverseLoads[id].page)
    ensures var load, u := s.reverseLoads[id], Step(s, ReverseAnswers(id, ok));
            && u.reverse == s.reverse && load.page < |u.reverseStore| && ReverseCurrent(s, load.sent)
            && u.reverseStore[load.page] == ReversePage(false, !ok, if ok then {load.sent} else {})
            && id < |u.reverseLoads| && !u.reverseLoads[id].waiting
  {
    hide GroupsOk, DecisionsOk;
    assert ReverseLoadOk(s, s.reverseLoads[id]);
  }

  // ---------- A load from its start to its end ----------

  predicate CanLoad(s: State, key: Key) {
    s.connected && !s.seeding && (key in s.pages ==> s.pages[key] < |s.groupStore|) && !GroupLoading(s, key)
  }

  // The live page of a group.
  function PageOf(s: State, key: Key): Option<GroupPage> {
    if key in s.pages && s.pages[key] < |s.groupStore| then Some(s.groupStore[s.pages[key]]) else None
  }

  lemma {:induction false} LoadStarts(s: State, key: Key, root: bool, first: bool)
    requires CanLoad(s, key)
    ensures var u := Step(s, LoadGroup(key, root, first));
            && PageOf(u, key).Some? && u.pages[key] == |s.groupStore|
            && var page := PageOf(u, key).value;
            && page.loading && !page.error && page.rows == {} && !page.countLoading && !page.countError
            && (PageOf(s, key).Some? ==> page.counts == PageOf(s, key).value.counts && page.exact == PageOf(s, key).value.exact)
            && (PageOf(s, key).None? ==> page.counts == {} && !page.exact)
            && u.params == s.params && u.epoch == s.epoch
            && |u.groupLoads| == |s.groupLoads| + 1
            && u.groupLoads[|s.groupLoads|]
               == GroupLoad(u.pages[key], s.epoch, s.params, root, first, Rows, true)
  {
  }

  // The first page of a root group: rows and then a count, both of the current choices.
  lemma {:induction false} RootPageArrives(s: State, key: Key, rows: Answer, count: Answer)
    requires CanLoad(s, key) && rows.Arrived? && count.Arrived?
    ensures var id := |s.groupLoads|;
            var u := Step(Step(Step(s, LoadGroup(key, true, true)), GroupAnswers(id, rows)), GroupAnswers(id, count));
            && PageOf(u, key) == Some(GroupPage(false, false, {s.params}, {s.params}, count.exact, false, false))
            && id < |u.groupLoads| && !u.groupLoads[id].waiting
  {
    LoadStarts(s, key, true, true);
    var v := Step(s, LoadGroup(key, true, true));
    hide BeginGroup, GroupLoading;
  }

  // Any other page of a root group keeps the count of the page before it.
  lemma {:induction false} NextRootPageArrives(s: State, key: Key, rows: Answer)
    requires CanLoad(s, key) && rows.Arrived? && PageOf(s, key).Some?
    ensures var id, page := |s.groupLoads|, PageOf(s, key).value;
            var u := Step(Step(s, LoadGroup(key, true, false)), GroupAnswers(id, rows));
            && PageOf(u, key) == Some(GroupPage(false, false, {s.params}, page.counts, page.exact, false, false))
            && id < |u.groupLoads| && !u.groupLoads[id].waiting
  {
    LoadStarts(s, key, true, false);
    hide BeginGroup, GroupLoading;
  }

  // A first root page whose count fails keeps the count from before, and shows the failure.
  lemma {:induction false} RootPageWithoutCount(s: State, key: Key, rows: Answer)
    requires CanLoad(s, key) && rows.Arrived? && PageOf(s, key).Some?
    ensures var id, page := |s.groupLoads|, PageOf(s, key).value;
            var u := Step(Step(Step(s, LoadGroup(key, true, true)), GroupAnswers(id, rows)), GroupAnswers(id, Failed));
            && PageOf(u, key) == Some(GroupPage(false, false, {s.params}, page.counts, page.exact, false, true))
            && id < |u.groupLoads| && !u.groupLoads[id].waiting
  {
    LoadStarts(s, key, true, true);
    hide BeginGroup, GroupLoading;
  }

  // What is not offered does nothing: loads while a profile is not connected, while a seed
  // runs or while the same page loads, selections and reverse pages alike.
  lemma {:induction false} NothingStarts(s: State, key: Key, root: bool, first: bool, resource: Resource, permission: string, checks: nat)
    ensures !s.connected || s.seeding || (PageOf(s, key).Some? && PageOf(s, key).value.loading) ==>
              Step(s, LoadGroup(key, root, first)) == s
    ensures !s.connected || s.seeding ==> Step(s, Select(resource, permission, checks)) == s
    ensures !s.connected || s.selected.None?
            || (s.reverse.Some? && s.reverse.value < |s.reverseStore| && s.reverseStore[s.reverse.value].loading) ==>
              Step(s, LoadReverse) == s
    ensures !s.connected || PageOf(s, key).None? ==> Step(s, IncreaseCount(key)) == s
  {
  }

  lemma {:induction false} FailedPageShowsError(s: State, key: Key, root: bool, first: bool)
    requires CanLoad(s, key)
    ensures var u := Step(Step(s, LoadGroup(key, root, first)), GroupAnswers(|s.groupLoads|, Failed));
            PageOf(u, key).Some? && PageOf(u, key).value.error && !PageOf(u, key).value.loading && PageOf(u, key).value.rows == {}
  {
    LoadStarts(s, key, root, first);
    hide BeginGroup, GroupLoading;
  }

  function Answers(s: State, id: nat, n: nat): State
    decreases n
  {
    if n == 0 then s else Answers(Step(s, GroupAnswers(id, Arrived(0, false))), id, n - 1)
  }

  // A relation asks for its rows and then checks them one by one; the page loads until the
  // last check.
  lemma {:induction false} ChecksArrive(s: State, key: Key, id: nat, n: nat)
    requires n > 0 && id < |s.groupLoads| && PageOf(s, key).Some?
    requires var load := s.groupLoads[id];
             load.waiting && load.epoch == s.epoch && load.sent == s.params && load.page == s.pages[key] && load.phase == Checks(n)
    ensures var u := Answers(s, id, n);
            && PageOf(u, key) == Some(PageOf(s, key).value.(loading := false, rows := PageOf(s, key).value.rows + {s.params}))
            && id < |u.groupLoads| && !u.groupLoads[id].waiting
    decreases n
  {
    var t := Step(s, GroupAnswers(id, Arrived(0, false)));
    assert Answers(s, id, n) == Answers(t, id, n - 1);
    if n > 1 {
      ChecksArrive(t, key, id, n - 1);
    } else {
      assert Answers(t, id, 0) == t;
    }
  }

  lemma {:induction false} RelationPageArrives(s: State, key: Key, first: bool, n: nat, exact: bool)
    requires CanLoad(s, key)
    ensures var id := |s.groupLoads|;
            var u := Answers(Step(Step(s, LoadGroup(key, false, first)), GroupAnswers(id, Arrived(n, exact))), id, n);
            && PageOf(u, key).Some? && PageOf(u, key).value.rows == {s.params}
            && !PageOf(u, key).value.loading && !PageOf(u, key).value.error
            && id < |u.groupLoads| && !u.groupLoads[id].waiting
  {
    LoadStarts(s, key, false, first);
    var id := |s.groupLoads|;
    var v := Step(Step(s, LoadGroup(key, false, first)), GroupAnswers(id, Arrived(n, exact)));
    hide BeginGroup, GroupLoading;
    if n > 0 {
      ChecksArrive(v, key, id, n);
    } else {
      assert Answers(v, id, 0) == v;
    }
  }

  // The button counts further, once, and only where a count was cut off.
  lemma {:induction false} IncreaseArrives(s: State, key: Key, answer: Answer)
    requires s.connected && PageOf(s, key).Some?
    ensures var page, id := PageOf(s, key).value, |s.countLoads|;
            var v := Step(s, IncreaseCount(key));
            && (page.counts == {} || page.exact || page.countLoading ==> v == s)
            && (page.counts != {} && !page.exact && !page.countLoading ==>
                  && PageOf(v, key) == Some(page.(countLoading := true))
                  && PageOf(Step(v, CountAnswers(id, answer)), key)
                     == Some(if answer.Failed? then page.(countError := true)
                             else page.(counts := {s.params}, exact := answer.exact, countError := false)))
  {
  }

  // A selection asks for each permission, and the answer of any check is held.
  lemma {:induction false} SelectionArrives(s: State, resource: Resource, permission: string, checks: nat, i: nat)
    requires s.connected && !s.seeding && i < checks
    ensures var v := Step(s, Select(resource, permission, checks));
            var u := Step(v, DecisionAnswers(|s.decisionLoads| + i));
            && v.selected == Some(resource) && v.reversePermission == permission && v.decisions == {} && v.reverse.None?
            && u.decisions == {DecisionParams(resource, s.params.principal, s.params.flags)}
  {
  }

  // The reverse page of the selection, for the permission chosen.
  lemma {:induction false} ReverseArrives(s: State, permission: string, ok: bool)
    requires s.connected && s.selected.Some?
    ensures var v := Step(s, ChooseReverse(permission));
            var u := Step(v, ReverseAnswers(|s.reverseLoads|, ok));
            && v.reversePermission == permission
            && v.reverse == Some(|s.reverseStore|) && u.reverse == v.reverse && |u.reverseStore| == |s.reverseStore| + 1
            && u.reverseStore[|s.reverseStore|]
               == ReversePage(false, !ok, if ok then {ReverseParams(s.selected.value, permission, s.params.flags)} else {})
  {
  }

  // A choice empties the display, and keeps the selection only if it is told to.
  lemma {:induction false} ChoiceEmpties(s: State, params: Params, connected: bool, keep: bool)
    ensures var u := Step(s, Choose(params, connected, keep));
            && u.params == params && u.connected == connected
            && u.pages == map[] && u.decisions == {} && u.reverse.None?
            && u.selected == (if keep then s.selected else None)
            && u.epoch > s.epoch && u.inspectorEpoch > s.inspectorEpoch
  {
  }

  // A seed empties the pages and the selection, and its end starts over.
  lemma {:induction false} SeedEmpties(s: State)
    ensures var u, v := Step(s, SeedStarts), Step(s, SeedEnds);
            && u.seeding && u.pages == map[] && u.selected.None? && u.epoch > s.epoch && u.inspectorEpoch > s.inspectorEpoch
            && !v.seeding && v.pages == map[] && v.selected.None? && v.decisions == {} && v.reverse.None?
            && v.epoch > s.epoch && v.inspectorEpoch > s.inspectorEpoch
  {
  }
}
