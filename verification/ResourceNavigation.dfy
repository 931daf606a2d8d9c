// Which page each button of a resource group leads to, and which count it shows.
module ResourceNavigation {
  import opened Wrappers
  import opened ResourceGroup

  // The page on display is the one that starts at this position of the list.
  predicate Shows(service: Service, s: State, start: nat) {
    var list := service.lists(s.scope);
    && SettledPage(s).Some? && start <= |list|
    && SettledPage(s).value.items == list[start..if start + service.pageSize < |list| then start + service.pageSize else |list|]
    && |s.displayedCursors| * service.pageSize == start
  }

  function Arrived(service: Service, s: State, op: Operation): State {
    Step(service, Step(service, s, op), PageArrives)
  }

  function FailedAfter(service: Service, s: State, op: Operation): State {
    Step(service, Step(service, s, op), PageFails)
  }

  // A load shows the page after those whose end cursors it carries.
  lemma {:induction false} LoadShows(service: Service, s: State)
    requires Invariant(service, s) && s.load.Some?
    ensures Shows(service, Step(service, s, PageArrives), |s.cursors| * service.pageSize)
    ensures Step(service, s, PageArrives).load.None? && !Step(service, s, PageArrives).failed
  {
    PageShown(service, s);
    hide Step, Chain;
    AnswerAlongChain(service, s.load.value);
    assert |s.cursors| * service.pageSize <= |service.lists(s.scope)| by { AnswerInList(service, s); }
  }

  lemma {:induction false} AnswerInList(service: Service, s: State)
    requires Invariant(service, s) && s.load.Some?
    ensures |s.cursors| * service.pageSize <= |service.lists(s.scope)|
  {
    hide PageAt;
    AnswerAlongChain(service, s.load.value);
  }

  lemma {:induction false} PageShown(service: Service, s: State)
    requires s.load.Some?
    ensures var u := Step(service, s, PageArrives);
            && u.scope == s.scope && u.displayedCursors == s.cursors && u.load.None? && !u.failed
            && u.displayed == Some(Displayed(s.load.value.scope, Answer(service, s.load.value)))
  {
    hide Answer;
  }

  // What each operation asks for.
  lemma {:induction false} Asks(service: Service, s: State, start: nat)
    requires Invariant(service, s) && s.load.None? && Shows(service, s, start) && service.pageSize >= 1
    ensures var more := start + service.pageSize < |service.lists(s.scope)|;
            var n := |s.displayedCursors|;
            && (more ==> Loads(Step(service, s, Next), n + 1)) && (!more ==> Step(service, s, Next) == s)
            && (n > 0 ==> Loads(Step(service, s, Previous), n - 1)) && (n == 0 ==> Step(service, s, Previous) == s)
            && (n > 0 ==> Loads(Step(service, s, First), 0)) && (n == 0 ==> Step(service, s, First) == s)
            && (start > 0 <==> n > 0)
  {
    HasMore(service, s, start);
    PositionOfCursors(service, s, start);
    hide PageAt, Invariant, Chain, Shows;
  }

  lemma {:induction false} HasMore(service: Service, s: State, start: nat)
    requires Invariant(service, s) && Shows(service, s, start)
    ensures SettledPage(s).value.hasNext <==> start + service.pageSize < |service.lists(s.scope)|
    ensures SettledPage(s).value.endCursor.Some?
  {
    hide Chain, CountInvariant;
  }

  predicate Loads(s: State, n: nat) { s.load.Some? && |s.cursors| == n }

  // From the page at a position, with no load under way: next leads to the page after it,
  // if there is more, previous to the page before it, if there is one, and first to the
  // first page. Otherwise the page stays.
  lemma {:induction false} ButtonsLead(service: Service, s: State, start: nat)
    requires Invariant(service, s) && s.load.None? && Shows(service, s, start) && service.pageSize >= 1
    ensures var more := start + service.pageSize < |service.lists(s.scope)|;
            && Shows(service, Arrived(service, s, Next), if more then start + service.pageSize else start)
            && Shows(service, Arrived(service, s, Previous),
                     if start >= service.pageSize then start - service.pageSize else 0)
            && Shows(service, Arrived(service, s, First), 0)
  {
    hide Step, Invariant, SettledPage, Shows, PageAt;
    Asks(service, s, start);
    PositionOfCursors(service, s, start);
    NavigationKeeps(service, s, Next);
    NavigationKeeps(service, s, Previous);
    NavigationKeeps(service, s, First);
    ButtonLeads(service, s, Next, start);
    ButtonLeads(service, s, Previous, start);
    ButtonLeads(service, s, First, start);
  }

  lemma {:induction false} PositionOfCursors(service: Service, s: State, start: nat)
    requires Shows(service, s, start) && service.pageSize >= 1
    ensures var n := |s.displayedCursors|;
            && (n + 1) * service.pageSize == start + service.pageSize
            && (n > 0 ==> start >= service.pageSize && (n - 1) * service.pageSize == start - service.pageSize)
            && (n == 0 ==> start == 0)
  {
    var n := |s.displayedCursors|;
    Successor(n, service.pageSize);
    if n > 0 {
      Successor(n - 1, service.pageSize);
    }
  }

  lemma {:induction false} ButtonLeads(service: Service, s: State, op: Operation, start: nat)
    requires Shows(service, s, start) && s.load.None?
    requires var t := Step(service, s, op); t == s || (Invariant(service, t) && t.load.Some?)
    ensures var t := Step(service, s, op);
            && (t == s ==> Shows(service, Arrived(service, s, op), start))
            && (t.load.Some? ==> Shows(service, Arrived(service, s, op), |t.cursors| * service.pageSize))
  {
    var t := Step(service, s, op);
    if t.load.Some? {
      hide Step, Shows, Invariant;
      LoadShows(service, t);
    } else {
      NothingArrives(service, s);
    }
  }

  lemma {:induction false} NothingArrives(service: Service, s: State)
    requires s.load.None?
    ensures Step(service, s, PageArrives) == s
  {
  }

  // When the load fails the page stays. A retry leads where the button would have, and
  // the recovery from an invalid cursor leads to the first page and from any other error to
  // the page before the one on display.
  lemma {:induction false} RecoveriesLead(service: Service, s: State, op: Operation, start: nat, target: nat)
    requires Invariant(service, s) && s.load.None? && Shows(service, s, start) && service.pageSize >= 1
    requires (op == Next && target == start + service.pageSize < |service.lists(s.scope)|)
             || (op == Previous && start > service.pageSize && target == start - service.pageSize)
    ensures var f := FailedAfter(service, s, op);
            && Shows(service, f, start)
            && Shows(service, Arrived(service, f, Reload), target)
            && Shows(service, Arrived(service, f, Recover(true)), 0)
            && Shows(service, Arrived(service, f, Recover(false)), if start >= service.pageSize then start - service.pageSize else 0)
  {
    hide Step, Shows, SettledPage, Invariant, FailedAfter, Arrived, Loads;
    var f := FailedAfter(service, s, op);
    FailureIs(service, s, op, start);
    ShowsTheSame(service, s, f, start);
    AskedCursors(service, s, op, start);
    RecoveryLoads(service, f);
    RecoveryShows(service, f, Reload, |f.cursors|);
    RecoveryShows(service, f, Recover(true), 0);
    RecoveryShows(service, f, Recover(false), if f.displayedCursors == [] then 0 else |f.displayedCursors| - 1);
  }

  lemma {:induction false} FailureIs(service: Service, s: State, op: Operation, start: nat)
    requires Invariant(service, s) && s.load.None? && Shows(service, s, start) && service.pageSize >= 1
    requires (op == Next && start + service.pageSize < |service.lists(s.scope)|)
             || (op == Previous && start > service.pageSize)
    ensures var f, t := FailedAfter(service, s, op), Step(service, s, op);
            && Invariant(service, f) && f.failed && f.load.None? && f.cursors == t.cursors && f.scope == s.scope
            && f.displayedCursors == s.displayedCursors && f.displayed == s.displayed
  {
    AskedCursors(service, s, op, start);
    NavigationKeeps(service, s, op);
    FailureKeepsDisplay(service, s, op);
    hide Invariant, Shows, SettledPage;
    OtherKeeps(service, Step(service, s, op), PageFails);
  }

  lemma {:induction false} RecoveryShows(service: Service, f: State, op: Operation, n: nat)
    requires Invariant(service, f) && (op.Reload? || op.Recover?) && Loads(Step(service, f, op), n)
    ensures Shows(service, Arrived(service, f, op), n * service.pageSize)
  {
    hide Step, Shows, Invariant;
    if op.Reload? {
      OtherKeeps(service, f, op);
    } else {
      NavigationKeeps(service, f, op);
    }
    LoadShows(service, Step(service, f, op));
  }

  lemma {:induction false} ShowsTheSame(service: Service, s: State, f: State, start: nat)
    requires Shows(service, s, start)
    requires f.scope == s.scope && f.displayed == s.displayed && f.displayedCursors == s.displayedCursors
    ensures Shows(service, f, start)
  {
  }

  // The number of cursors of what next and previous ask for, and its position.
  lemma {:induction false} AskedCursors(service: Service, s: State, op: Operation, start: nat)
    requires Invariant(service, s) && s.load.None? && Shows(service, s, start) && service.pageSize >= 1
    requires (op == Next && start + service.pageSize < |service.lists(s.scope)|)
             || (op == Previous && start > service.pageSize)
    ensures var t := Step(service, s, op);
            && t.load.Some? && t.cursors != []
            && |t.cursors| * service.pageSize == if op == Next then start + service.pageSize else start - service.pageSize
    ensures s.displayedCursors != [] ==> (|s.displayedCursors| - 1) * service.pageSize == start - service.pageSize
    ensures s.displayedCursors == [] ==> start == 0
  {
    Asks(service, s, start);
    PositionOfCursors(service, s, start);
    hide Step, Invariant, Shows;
    if op == Previous {
      OneCursor(service, s, start);
    }
  }

  lemma {:induction false} OneCursor(service: Service, s: State, start: nat)
    requires Shows(service, s, start) && start > service.pageSize
    ensures |s.displayedCursors| > 1
  {
    assert |s.displayedCursors| == 1 ==> |s.displayedCursors| * service.pageSize == service.pageSize;
  }

  lemma {:induction false} FailureKeepsDisplay(service: Service, s: State, op: Operation)
    requires op == Next || op == Previous
    requires Step(service, s, op).load.Some?
    ensures var f, t := FailedAfter(service, s, op), Step(service, s, op);
            && f.failed && f.load.None? && f.cursors == t.cursors && f.scope == s.scope
            && f.displayedCursors == s.displayedCursors && f.displayed == s.displayed
  {
  }

  lemma {:induction false} RecoveryLoads(service: Service, f: State)
    requires f.failed && f.load.None? && f.cursors != []
    ensures Loads(Step(service, f, Reload), |f.cursors|)
    ensures Loads(Step(service, f, Recover(true)), 0)
    ensures Loads(Step(service, f, Recover(false)), if f.displayedCursors == [] then 0 else |f.displayedCursors| - 1)
  {
  }

  // For every run: the buttons, the recoveries, and next and previous one after the other.
  lemma {:induction false} NavigationIsExact(service: Service, scope: Scope, ops: seq<Operation>, start: nat)
    requires service.pageSize >= 1 && LegalRun(service, scope, ops)
    requires Exec(service, scope, ops).load.None? && Shows(service, Exec(service, scope, ops), start)
    ensures var s := Exec(service, scope, ops);
            var more := start + service.pageSize < |service.lists(s.scope)|;
            && (more ==> Shows(service, Arrived(service, s, Next), start + service.pageSize))
            && (start > 0 ==> start >= service.pageSize && Shows(service, Arrived(service, s, Previous), start - service.pageSize))
            && Shows(service, Arrived(service, s, First), 0)
            && (more ==> Shows(service, Arrived(service, Arrived(service, s, Next), Previous), start))
  {
    hide Exec, LegalRun, Step, Invariant, Shows, Arrived, SettledPage;
    ExecKeepsInvariant(service, scope, ops);
    var s := Exec(service, scope, ops);
    StartsAtPage(service, s, start);
    ButtonsLead(service, s, start);
    if start + service.pageSize < |service.lists(s.scope)| {
      var t := Arrived(service, s, Next);
      ArrivedKeeps(service, s, Next);
      StartsAtPage(service, t, start + service.pageSize);
      ButtonsLead(service, t, start + service.pageSize);
    }
  }

  lemma {:induction false} StartsAtPage(service: Service, s: State, start: nat)
    requires Shows(service, s, start)
    ensures start > 0 ==> start >= service.pageSize
  {
    if |s.displayedCursors| > 0 {
      Successor(|s.displayedCursors| - 1, service.pageSize);
    }
  }

  lemma {:induction false} ArrivedKeeps(service: Service, s: State, op: Operation)
    requires Invariant(service, s) && (op.Next? || op.Previous? || op.First?)
    ensures Invariant(service, Arrived(service, s, op)) && Arrived(service, s, op).load.None?
    ensures Arrived(service, s, op).scope == s.scope
  {
    NavigationKeeps(service, s, op);
    ArrivalKeeps(service, Step(service, s, op));
    hide Invariant, PageAt;
  }

  lemma {:induction false} RecoveryIsExact(
    service: Service, scope: Scope, ops: seq<Operation>, op: Operation, start: nat, target: nat)
    requires service.pageSize >= 1 && LegalRun(service, scope, ops)
    requires Exec(service, scope, ops).load.None? && Shows(service, Exec(service, scope, ops), start)
    requires (op == Next && target == start + service.pageSize < |service.lists(Exec(service, scope, ops).scope)|)
             || (op == Previous && start > service.pageSize && target == start - service.pageSize)
    ensures var f := FailedAfter(service, Exec(service, scope, ops), op);
            && Shows(service, f, start)
            && Shows(service, Arrived(service, f, Reload), target)
            && Shows(service, Arrived(service, f, Recover(true)), 0)
            && Shows(service, Arrived(service, f, Recover(false)), if start >= service.pageSize then start - service.pageSize else 0)
  {
    hide Exec, LegalRun, Step, Invariant, Shows, Arrived, FailedAfter;
    ExecKeepsInvariant(service, scope, ops);
    StartsAtPage(service, Exec(service, scope, ops), start);
    RecoveriesLead(service, Exec(service, scope, ops), op, start, target);
  }

  // A new scope starts at its first page, with nothing counted beyond 1,000.
  lemma {:induction false} NewScopeStartsOver(service: Service, s: State, scope: Scope)
    requires Invariant(service, s) && scope != s.scope
    ensures var t := Arrived(service, s, ChangeScope(scope));
            t.scope == scope && Shows(service, t, 0) && t.load.None? && !t.failed && t.countLimit == 1000 && t.increases == 0
  {
    OtherKeeps(service, s, ChangeScope(scope));
    LoadShows(service, Step(service, s, ChangeScope(scope)));
  }

  // ---------- Counts ----------

  // A count that arrives is shown: an exact one as the total, and one that is cut off with
  // a plus sign and at least its value.
  lemma {:induction false} CountIsShown(service: Service, scope: Scope, ops: seq<Operation>, count: Count)
    requires service.pageSize >= 1 && LegalRun(service, scope, ops)
    requires SettledPage(Exec(service, scope, ops)).Some?
    requires Legal(service, Step(service, Exec(service, scope, ops), StartCount), CountArrives(count))
    ensures var s := Exec(service, scope, ops);
            var u := Step(service, Step(service, s, StartCount), CountArrives(count));
            && u.scope == s.scope && SettledCount(u) == Some(count) && u.countLoad.None?
            && (!count.truncated ==> Shown(service, u) == Count(|service.lists(s.scope)|, false))
            && (count.truncated ==> Shown(service, u).truncated && Shown(service, u).value >= count.value)
  {
    hide Exec, LegalRun, PageAt, Chain;
    ExecKeepsInvariant(service, scope, ops);
    var s := Exec(service, scope, ops);
    CountKeeps(service, s, StartCount);
    CountKeeps(service, Step(service, s, StartCount), CountArrives(count));
  }

  // A count that fails leaves the count that was shown, and another can be asked for.
  lemma {:induction false} FailedCountKeeps(service: Service, s: State)
    requires SettledPage(s).Some?
    ensures var u := Step(service, s, CountFails);
            && SettledCount(u) == SettledCount(s) && u.countLoad.None?
            && Step(service, u, StartCount).countLoad == Some(CountLoad(s.scope, s.countLimit))
  {
  }

  // The button raises the limit of a count that was cut off to twice what it was, up to
  // 30,000, and counts again. It does nothing while a count is under way, for an exact
  // count, or at the limit.
  lemma {:induction false} IncreaseDoubles(service: Service, s: State)
    requires SettledPage(s).Some?
    ensures var u := Step(service, s, IncreaseCount);
            if s.countLoad.None? && SettledCount(s).Some? && SettledCount(s).value.truncated && s.countLimit < 30000 then
              && u.countLimit == (if s.countLimit * 2 < 30000 then s.countLimit * 2 else 30000)
              && u.countLoad == Some(CountLoad(s.scope, u.countLimit)) && u.increases == s.increases + 1
            else u == s
  {
  }

  // Before any count has arrived the end of the furthest page seen is shown, with a plus
  // sign unless the list is empty.
  lemma {:induction false} UncountedShowsRange(service: Service, scope: Scope, ops: seq<Operation>)
    requires service.pageSize >= 1 && LegalRun(service, scope, ops)
    requires SettledPage(Exec(service, scope, ops)).Some? && SettledCount(Exec(service, scope, ops)).None?
    ensures var s, shown := Exec(service, scope, ops), Shown(service, Exec(service, scope, ops));
            && RangeEnd(service, s) <= shown.value <= |service.lists(s.scope)|
            && (shown.truncated <==> shown.value > 0 || SettledPage(s).value.hasNext)
            && (!shown.truncated ==> service.lists(s.scope) == [])
  {
    ExecKeepsInvariant(service, scope, ops);
    var s := Exec(service, scope, ops);
    hide Exec, LegalRun, Chain;
    if service.lists(s.scope) != [] {
      SomethingIsSeen(service, s);
    }
  }

  lemma {:induction false} SomethingIsSeen(service: Service, s: State)
    requires Invariant(service, s) && SettledPage(s).Some? && service.pageSize >= 1 && service.lists(s.scope) != []
    ensures RangeEnd(service, s) > 0
  {
    hide CountInvariant;
    if s.displayedCursors != [] {
      Successor(|s.displayedCursors| - 1, service.pageSize);
    }
  }
}
