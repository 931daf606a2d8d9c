// One resource type group of the explorer: a cursor stack over a paged service and
// a displayed total that may only be a lower bound.
//
// A group stays expanded and keeps its page size here. A scope is everything that
// decides which resources are listed: subject, permission, basis and consistency.
module ResourceGroup {
  import opened Wrappers

  type Scope = nat
  type Item = string

  // A token of the service: the scope it was issued in and a position in its list.
  datatype Cursor = Cursor(scope: Scope, position: nat)

  datatype Page = Page(items: seq<Item>, hasNext: bool, endCursor: Option<Cursor>)

  datatype Displayed = Displayed(scope: Scope, page: Page)

  datatype Load = Load(scope: Scope, cursors: seq<Cursor>)

  datatype Count = Count(value: nat, truncated: bool)

  datatype Counted = Counted(scope: Scope, count: Count)

  datatype CountLoad = CountLoad(scope: Scope, limit: nat)

  // The service: the list of each scope, and the page size.
  datatype Service = Service(lists: Scope -> seq<Item>, pageSize: nat)

  const INITIAL_COUNT_LIMIT := 1000
  const MAXIMUM_COUNT_LIMIT := 30000

  // The signals of the component, what it has asked for, and how often the count
  // limit has been raised in this scope.
  datatype State = State(
    scope: Scope,
    cursors: seq<Cursor>,
    displayedCursors: seq<Cursor>,
    displayed: Option<Displayed>,
    load: Option<Load>,
    failed: bool,
    observedScope: Option<Scope>,
    greatestObserved: nat,
    counted: Option<Counted>,
    countLoad: Option<CountLoad>,
    countLimit: nat,
    increases: nat)

  datatype Operation =
    | Next | Previous | First
    | Recover(invalidCursor: bool)   // the second button of a failed page
    | Reload                         // retry, a requery or a cache switch
    | PageArrives | PageFails
    | StartCount | CountArrives(count: Count) | CountFails | IncreaseCount
    | ChangeScope(scope: Scope)

  function Initial(scope: Scope): State {
    State(scope, [], [], None, Some(Load(scope, [])), false, None, 0, None, None, INITIAL_COUNT_LIMIT, 0)
  }

  function Min(a: nat, b: nat): nat { if a < b then a else b }
  function Max(a: nat, b: nat): nat { if a < b then b else a }

  function NextCountLimit(current: nat): nat { Min(MAXIMUM_COUNT_LIMIT, current * 2) }

  function PageAt(service: Service, scope: Scope, position: nat): Page {
    var list := service.lists(scope);
    var start, stop := Min(position, |list|), Min(position + service.pageSize, |list|);
    Page(list[start..stop], stop < |list|, Some(Cursor(scope, stop)))
  }

  // The page a load is answered with.
  function Answer(service: Service, load: Load): Page {
    PageAt(service, load.scope, if load.cursors == [] then 0 else load.cursors[|load.cursors| - 1].position)
  }

  // The page on display, unless it belongs to another scope.
  function SettledPage(s: State): Option<Page> {
    if s.displayed.Some? && s.displayed.value.scope == s.scope then Some(s.displayed.value.page) else None
  }

  function SettledCount(s: State): Option<Count> {
    if s.counted.Some? && s.counted.value.scope == s.scope then Some(s.counted.value.count) else None
  }

  function ButLast(cursors: seq<Cursor>): seq<Cursor> {
    if cursors == [] then [] else cursors[..|cursors| - 1]
  }

  // Navigation is ignored while a page loads; otherwise it starts a load.
  function Navigate(s: State, cursors: seq<Cursor>): State {
    if s.load.Some? then s else s.(cursors := cursors, load := Some(Load(s.scope, cursors)))
  }

  function CanIncreaseCount(s: State): bool {
    SettledCount(s).Some? && SettledCount(s).value.truncated && s.countLimit < MAXIMUM_COUNT_LIMIT
  }

  function ShowPage(service: Service, s: State, load: Load): State {
    var page := Answer(service, load);
    var rangeEnd := |load.cursors| * service.pageSize + |page.items|;
    s.(displayed := Some(Displayed(load.scope, page)),
       displayedCursors := s.cursors,
       load := None,
       failed := false,
       greatestObserved :=
         if s.observedScope == Some(load.scope) then Max(s.greatestObserved, rangeEnd) else rangeEnd,
       observedScope := Some(load.scope))
  }

  function Step(service: Service, s: State, op: Operation): State {
    match op
    case Next =>
      if SettledPage(s).Some? && SettledPage(s).value.hasNext && SettledPage(s).value.endCursor.Some?
      then Navigate(s, s.displayedCursors + [SettledPage(s).value.endCursor.value]) else s
    case Previous =>
      if SettledPage(s).Some? && s.displayedCursors != [] then Navigate(s, ButLast(s.displayedCursors)) else s
    case First =>
      if SettledPage(s).Some? && s.displayedCursors != [] then Navigate(s, []) else s
    case Recover(invalidCursor) =>
      if !s.failed || s.cursors == [] then s
      else Navigate(s, if invalidCursor then [] else ButLast(s.displayedCursors))
    case Reload => s.(load := Some(Load(s.scope, s.cursors)))
    case PageArrives => if s.load.Some? then ShowPage(service, s, s.load.value) else s
    case PageFails => if s.load.Some? then s.(load := None, failed := true) else s
    case StartCount =>
      if SettledPage(s).Some? then s.(countLoad := Some(CountLoad(s.scope, s.countLimit))) else s
    case CountArrives(count) =>
      if s.countLoad.Some?
      then s.(counted := Some(Counted(s.countLoad.value.scope, count)), countLoad := None) else s
    case CountFails => s.(countLoad := None)
    case IncreaseCount =>
      if s.countLoad.Some? || !CanIncreaseCount(s) then s
      else
        var limit := NextCountLimit(s.countLimit);
        s.(countLimit := limit, increases := s.increases + 1,
           countLoad := if SettledPage(s).Some? then Some(CountLoad(s.scope, limit)) else None)
    case ChangeScope(scope) =>
      if scope == s.scope then s
      else
        var t := s.(scope := scope, cursors := [], load := Some(Load(scope, [])), failed := false,
                    countLimit := INITIAL_COUNT_LIMIT, increases := 0);
        t.(countLoad := if SettledPage(t).Some? then Some(CountLoad(scope, INITIAL_COUNT_LIMIT)) else None)
  }

  lemma {:induction false} ScopeStep(service: Service, s: State, scope: Scope)
    ensures scope == s.scope ==> Step(service, s, ChangeScope(scope)) == s
    ensures scope != s.scope ==>
              Step(service, s, ChangeScope(scope)) == s.(
                scope := scope, cursors := [], load := Some(Load(scope, [])), failed := false,
                countLimit := INITIAL_COUNT_LIMIT, increases := 0,
                countLoad := if s.displayed.Some? && s.displayed.value.scope == scope
                             then Some(CountLoad(scope, INITIAL_COUNT_LIMIT)) else None)
  {
  }

  // A count never exceeds what it counts, and one that is not cut off is exact.
  predicate Legal(service: Service, s: State, op: Operation) {
    op.CountArrives? && s.countLoad.Some? ==>
      var total := |service.lists(s.countLoad.value.scope)|;
      op.count.value <= total && (!op.count.truncated ==> op.count.value == total)
  }

  function Exec(service: Service, scope: Scope, ops: seq<Operation>): State {
    if ops == [] then Initial(scope)
    else Step(service, Exec(service, scope, ops[..|ops| - 1]), ops[|ops| - 1])
  }

  predicate LegalRun(service: Service, scope: Scope, ops: seq<Operation>) {
    forall i :: 0 <= i < |ops| ==> Legal(service, Exec(service, scope, ops[..i]), ops[i])
  }

  // ---------- The component's signals ----------

  class ResourceTypeGroup {
    ghost const service: Service
    var scope: Scope
    var cursors: seq<Cursor>
    var displayedCursors: seq<Cursor>
    var displayed: Option<Displayed>
    var load: Option<Load>
    var failed: bool
    var observedScope: Option<Scope>
    var greatestObserved: nat
    var counted: Option<Counted>
    var countLoad: Option<CountLoad>
    var countLimit: nat
    ghost var increases: nat

    constructor (ghost service: Service, scope: Scope)
      ensures View() == Initial(scope) && this.service == service
    {
      this.service, this.scope := service, scope;
      cursors, displayedCursors, displayed := [], [], None;
      load, failed := Some(Load(scope, [])), false;
      observedScope, greatestObserved := None, 0;
      counted, countLoad, countLimit, increases := None, None, INITIAL_COUNT_LIMIT, 0;
    }

    ghost function View(): State
      reads this
    {
      State(scope, cursors, displayedCursors, displayed, load, failed, observedScope, greatestObserved,
            counted, countLoad, countLimit, increases)
    }

    method NavigatePage(next: seq<Cursor>)
      modifies this`cursors, this`load
      ensures View() == Navigate(old(View()), next)
    {
      if load.Some? {
        return;
      }
      cursors := next;
      load := Some(Load(scope, next));
    }

    method NextPage()
      modifies this`cursors, this`load
      ensures View() == Step(service, old(View()), Next)
    {
      if displayed.Some? && displayed.value.scope == scope {
        var page := displayed.value.page;
        if page.hasNext && page.endCursor.Some? {
          NavigatePage(displayedCursors + [page.endCursor.value]);
        }
      }
    }

    method PreviousPage()
      modifies this`cursors, this`load
      ensures View() == Step(service, old(View()), Previous)
    {
      if displayed.Some? && displayed.value.scope == scope && displayedCursors != [] {
        NavigatePage(displayedCursors[..|displayedCursors| - 1]);
      }
    }

    method RecoverPage(invalidCursor: bool)
      modifies this`cursors, this`load
      ensures View() == Step(service, old(View()), Recover(invalidCursor))
    {
      if !failed || cursors == [] {
        return;
      }
      if invalidCursor {
        NavigatePage([]);
      } else {
        NavigatePage(if displayedCursors == [] then [] else displayedCursors[..|displayedCursors| - 1]);
      }
    }

    // The effect that runs when the page resource has a new result.
    method PageEffect(pageSize: nat, page: Page)
      requires load.Some? && page == Answer(service, load.value) && pageSize == service.pageSize
      modifies this
      ensures View() == Step(service, old(View()), PageArrives)
    {
      var result := load.value;
      var observedRangeEnd := |result.cursors| * pageSize + |page.items|;
      load, failed := None, false;
      displayed := Some(Displayed(result.scope, page));
      displayedCursors := cursors;
      if observedScope == Some(result.scope) {
        greatestObserved := Max(greatestObserved, observedRangeEnd);
      } else {
        observedScope := Some(result.scope);
        greatestObserved := observedRangeEnd;
      }
    }

    method RaiseCountLimit()
      modifies this`countLimit, this`countLoad, this`increases
      ensures View() == Step(service, old(View()), IncreaseCount)
    {
      if countLoad.Some? || counted.None? || counted.value.scope != scope
         || !counted.value.count.truncated || countLimit >= MAXIMUM_COUNT_LIMIT {
        return;
      }
      countLimit := NextCountLimit(countLimit);
      increases := increases + 1;
      countLoad := if displayed.Some? && displayed.value.scope == scope then Some(CountLoad(scope, countLimit)) else None;
    }

    // The effects of a new scope: both stacks of requests start again.
    method EnterScope(newScope: Scope)
      modifies this
      ensures View() == Step(service, old(View()), ChangeScope(newScope))
    {
      hide Step, SettledPage, Answer, SettledCount;
      ghost var before := View();
      ScopeStep(service, before, newScope);
      if newScope == scope {
        return;
      }
      scope, cursors, failed := newScope, [], false;
      load := Some(Load(scope, []));
      countLimit, increases := INITIAL_COUNT_LIMIT, 0;
      countLoad := if displayed.Some? && displayed.value.scope == scope then Some(CountLoad(scope, countLimit)) else None;
    }
  }

  // ---------- What is shown ----------

  function RangeStart(service: Service, s: State): nat {
    if SettledPage(s).Some? && SettledPage(s).value.items != [] then |s.displayedCursors| * service.pageSize + 1 else 0
  }

  function RangeEnd(service: Service, s: State): nat {
    |s.displayedCursors| * service.pageSize + if SettledPage(s).Some? then |SettledPage(s).value.items| else 0
  }

  function ObservedRangeEnd(service: Service, s: State): nat {
    if s.observedScope == Some(s.scope) then s.greatestObserved else RangeEnd(service, s)
  }

  function Presentation(count: Option<Count>, observedRangeEnd: nat, pageHasNext: bool): Count {
    var counted := if count.Some? then count.value.value else 0;
    var value := Max(counted, observedRangeEnd);
    Count(value, (count.Some? && count.value.truncated) || value > counted || (count.None? && pageHasNext))
  }

  function Shown(service: Service, s: State): Count {
    Presentation(SettledCount(s), ObservedRangeEnd(service, s),
                 SettledPage(s).Some? && SettledPage(s).value.hasNext)
  }

  // ---------- The invariant ----------

  // The end cursors of the pages before page |cursors|, in order, each of them followed by more.
  predicate Chain(service: Service, scope: Scope, cursors: seq<Cursor>) {
    forall i :: 0 <= i < |cursors| ==> Linked(service, scope, cursors[i], i)
  }

  predicate Linked(service: Service, scope: Scope, cursor: Cursor, i: nat) {
    cursor == Cursor(scope, (i + 1) * service.pageSize) && (i + 1) * service.pageSize < |service.lists(scope)|
  }

  predicate PageInvariant(service: Service, s: State) {
    && Chain(service, s.scope, s.cursors)
    && (s.load.Some? ==> s.load.value == Load(s.scope, s.cursors))
    && (s.cursors != [] ==> SettledPage(s).Some?)
    && (s.displayed.Some? ==>
          && Chain(service, s.displayed.value.scope, s.displayedCursors)
          && s.displayed.value.page
             == PageAt(service, s.displayed.value.scope, |s.displayedCursors| * service.pageSize))
    && (s.displayed.None? ==> s.displayedCursors == [])
  }

  predicate CountInvariant(service: Service, s: State) {
    && (s.observedScope.Some? ==> s.greatestObserved <= |service.lists(s.observedScope.value)|)
    && (s.countLoad.Some? ==> s.countLoad.value.scope == s.scope)
    && (s.counted.Some? ==>
          var total := |service.lists(s.counted.value.scope)|;
          && s.counted.value.count.value <= total
          && (!s.counted.value.count.truncated ==> s.counted.value.count.value == total))
    && (s.observedScope.None? <==> s.displayed.None?)
    && (s.displayed.Some? ==> s.observedScope == Some(s.displayed.value.scope))
    && (s.displayed.Some? ==> RangeOfDisplayed(service, s) <= s.greatestObserved)
    && s.countLimit == LimitAfter(s.increases)
  }

  function RangeOfDisplayed(service: Service, s: State): nat
    requires s.displayed.Some?
  {
    |s.displayedCursors| * service.pageSize + |s.displayed.value.page.items|
  }

  function LimitAfter(increases: nat): nat {
    if increases == 0 then INITIAL_COUNT_LIMIT else NextCountLimit(LimitAfter(increases - 1))
  }

  predicate Invariant(service: Service, s: State) {
    PageInvariant(service, s) && CountInvariant(service, s)
  }

  lemma {:induction false} Successor(k: nat, n: nat)
    ensures (k + 1) * n == k * n + n
  {
  }

  // A load along a chain is answered with the page at the position the chain reaches.
  lemma {:induction false} AnswerAlongChain(service: Service, load: Load)
    requires Chain(service, load.scope, load.cursors)
    ensures var start := |load.cursors| * service.pageSize;
            && Answer(service, load) == PageAt(service, load.scope, start)
            && (load.cursors != [] ==> start < |service.lists(load.scope)|)
            && start + |Answer(service, load).items| <= Max(start, |service.lists(load.scope)|)
  {
    if load.cursors != [] {
      assert load.cursors[|load.cursors| - 1].position == |load.cursors| * service.pageSize;
    }
  }

  lemma {:induction false} ChainExtends(service: Service, scope: Scope, cursors: seq<Cursor>, page: Page)
    requires Chain(service, scope, cursors)
    requires page == PageAt(service, scope, |cursors| * service.pageSize)
    requires page.hasNext
    ensures page.endCursor.Some? && Chain(service, scope, cursors + [page.endCursor.value])
  {
    Successor(|cursors|, service.pageSize);
  }

  lemma {:induction false} ChainShrinks(service: Service, scope: Scope, cursors: seq<Cursor>)
    requires Chain(service, scope, cursors)
    ensures Chain(service, scope, ButLast(cursors)) && Chain(service, scope, [])
  {
  }

  lemma {:induction false} ArrivalKeeps(service: Service, s: State)
    requires Invariant(service, s)
    ensures Invariant(service, Step(service, s, PageArrives))
  {
    if s.load.Some? {
      var load := s.load.value;
      AnswerAlongChain(service, load);
    }
  }

  lemma {:induction false} NavigationKeeps(service: Service, s: State, op: Operation)
    requires Invariant(service, s)
    requires op.Next? || op.Previous? || op.First? || op.Recover?
    ensures Invariant(service, Step(service, s, op))
  {
    hide PageAt;
    if s.displayed.Some? {
      var shown := s.displayed.value;
      ChainShrinks(service, shown.scope, s.displayedCursors);
      if shown.page.hasNext {
        HasNextHasCursor(service, shown.scope, |s.displayedCursors| * service.pageSize);
        ChainExtends(service, shown.scope, s.displayedCursors, shown.page);
      }
    }
  }

  lemma {:induction false} HasNextHasCursor(service: Service, scope: Scope, position: nat)
    ensures PageAt(service, scope, position).endCursor.Some?
  {
  }

  lemma {:induction false} CountKeeps(service: Service, s: State, op: Operation)
    requires Invariant(service, s) && Legal(service, s, op)
    requires op.StartCount? || op.CountArrives? || op.CountFails? || op.IncreaseCount?
    ensures Invariant(service, Step(service, s, op))
  {
    hide PageAt, Chain;
  }

  lemma {:induction false} OtherKeeps(service: Service, s: State, op: Operation)
    requires Invariant(service, s)
    requires op.Reload? || op.PageFails? || op.ChangeScope?
    ensures Invariant(service, Step(service, s, op))
  {
    hide PageAt;
  }

  lemma {:induction false} StepKeepsInvariant(service: Service, s: State, op: Operation)
    requires Invariant(service, s) && Legal(service, s, op)
    ensures Invariant(service, Step(service, s, op))
  {
    hide Invariant, Step, Legal;
    match op
    case PageArrives => ArrivalKeeps(service, s);
    case Next => NavigationKeeps(service, s, op);
    case Previous => NavigationKeeps(service, s, op);
    case First => NavigationKeeps(service, s, op);
    case Recover(_) => NavigationKeeps(service, s, op);
    case Reload => OtherKeeps(service, s, op);
    case PageFails => OtherKeeps(service, s, op);
    case ChangeScope(_) => OtherKeeps(service, s, op);
    case _ => CountKeeps(service, s, op);
  }

  lemma {:induction false} ExecKeepsInvariant(service: Service, scope: Scope, ops: seq<Operation>)
    requires LegalRun(service, scope, ops)
    ensures Invariant(service, Exec(service, scope, ops))
  {
    if ops == [] {
    } else {
      hide Invariant, Step, Legal;
      var front := ops[..|ops| - 1];
      assert forall i :: 0 <= i < |front| ==> front[..i] == ops[..i] && front[i] == ops[i];
      ExecKeepsInvariant(service, scope, front);
      StepKeepsInvariant(service, Exec(service, scope, front), ops[|ops| - 1]);
    }
  }

  // ---------- Main results ----------

  // After any sequence of navigation, failures, retries, recoveries and scope
  // changes, the cursor stack of the page on display is the chain of end cursors of
  // the pages before it, and the range shown is exactly the position of its items.
  lemma {:induction false} DisplayedRangeIsExact(service: Service, scope: Scope, ops: seq<Operation>)
    requires service.pageSize >= 1 && LegalRun(service, scope, ops)
    requires SettledPage(Exec(service, scope, ops)).Some?
    ensures var s := Exec(service, scope, ops);
            var list, items := service.lists(s.scope), SettledPage(s).value.items;
            var start, end := RangeStart(service, s), RangeEnd(service, s);
            && Chain(service, s.scope, s.displayedCursors)
            && Chain(service, s.scope, s.cursors)
            && (if list == [] then items == [] && start == end == 0
                else 1 <= start <= end <= |list| && items == list[start - 1..end])
            && (SettledPage(s).value.hasNext <==> end < |list|)
  {
    hide Exec, LegalRun;
    ExecKeepsInvariant(service, scope, ops);
    var s := Exec(service, scope, ops);
    if s.displayedCursors != [] {
      assert s.displayedCursors[|s.displayedCursors| - 1].position == |s.displayedCursors| * service.pageSize;
    }
  }

  // Whenever a count is shown without a plus sign it is the true total; and the
  // number shown exceeds the true total exactly when the page on display belongs to
  // another scope and its cursor stack reaches beyond that total.
  lemma {:induction false} ShownCountIsSound(service: Service, scope: Scope, ops: seq<Operation>)
    requires service.pageSize >= 1 && LegalRun(service, scope, ops)
    requires SettledCount(Exec(service, scope, ops)).Some?
    ensures var s := Exec(service, scope, ops);
            var total, shown := |service.lists(s.scope)|, Shown(service, s);
            && (!shown.truncated ==> shown.value == total)
            && (shown.value <= total
                <==> SettledPage(s).Some? || |s.displayedCursors| * service.pageSize <= total)
  {
    hide Exec, LegalRun, PageAt;
    ExecKeepsInvariant(service, scope, ops);
  }

  predicate StaysInScope(ops: seq<Operation>) {
    forall i :: 0 <= i < |ops| ==> !ops[i].ChangeScope?
  }

  lemma {:induction false} ScopeStays(service: Service, scope: Scope, ops: seq<Operation>)
    requires StaysInScope(ops)
    ensures var s := Exec(service, scope, ops);
            && s.scope == scope
            && (s.displayed.Some? ==> s.displayed.value.scope == scope)
            && (s.load.Some? ==> s.load.value.scope == scope)
            && (s.displayed.None? ==> s.displayedCursors == [])
  {
    hide PageAt, Answer;
    if ops != [] {
      ScopeStays(service, scope, ops[..|ops| - 1]);
    }
  }

  // Within one scope the number shown never exceeds the true total.
  lemma {:induction false} ShownCountWithinScope(service: Service, scope: Scope, ops: seq<Operation>)
    requires service.pageSize >= 1 && LegalRun(service, scope, ops) && StaysInScope(ops)
    requires SettledCount(Exec(service, scope, ops)).Some?
    ensures Shown(service, Exec(service, scope, ops)).value <= |service.lists(scope)|
  {
    hide Exec, LegalRun, PageAt, Shown;
    ShownCountIsSound(service, scope, ops);
    ScopeStays(service, scope, ops);
  }

  function Steps(service: Service, s: State, ops: seq<Operation>): State
    decreases |ops|
  {
    if ops == [] then s else Steps(service, Step(service, s, ops[0]), ops[1..])
  }

  lemma {:induction false} ExecSteps(service: Service, scope: Scope, ops: seq<Operation>, more: seq<Operation>)
    ensures Exec(service, scope, ops + more) == Steps(service, Exec(service, scope, ops), more)
    decreases |more|
  {
    hide Step;
    if more == [] {
      assert ops + more == ops;
    } else {
      ExecSteps(service, scope, ops + [more[0]], more[1..]);
      assert ops + more == ops + [more[0]] + more[1..];
      assert (ops + [more[0]])[..|ops|] == ops;
    }
  }

  lemma {:induction false} StepsUnfold(service: Service, s: State, op: Operation, more: seq<Operation>)
    ensures Steps(service, s, [op] + more) == Steps(service, Step(service, s, op), more)
  {
    hide Step;
    assert ([op] + more)[1..] == more;
  }

  // A page and its count.
  lemma {:induction false} CountedPage(service: Service, scope: Scope, count: Count)
    ensures var s := Steps(service, Initial(scope), [PageArrives, StartCount, CountArrives(count)]);
            && s.scope == scope && s.load.None? && s.counted == Some(Counted(scope, count))
            && s.displayed == Some(Displayed(scope, PageAt(service, scope, 0))) && s.displayedCursors == []
  {
    hide PageAt, Steps;
    var s1 := Step(service, Initial(scope), PageArrives);
    var s2 := Step(service, s1, StartCount);
    StepsUnfold(service, Initial(scope), PageArrives, [StartCount, CountArrives(count)]);
    StepsUnfold(service, s1, StartCount, [CountArrives(count)]);
    StepsUnfold(service, s2, CountArrives(count), []);
    NoSteps(service, Step(service, s2, CountArrives(count)));
    assert [PageArrives, StartCount, CountArrives(count)] == [PageArrives] + [StartCount, CountArrives(count)];
    assert [StartCount, CountArrives(count)] == [StartCount] + [CountArrives(count)];
    assert [CountArrives(count)] == [CountArrives(count)] + [];
  }

  lemma {:induction false} NoSteps(service: Service, s: State)
    ensures Steps(service, s, []) == s
  {
  }

  // Another scope up to its second page, with no count, and back.
  lemma {:induction false} ThereAndBack(service: Service, s: State, other: Scope)
    requires s.load.None? && s.scope != other && service.pageSize >= 1
    requires service.pageSize < |service.lists(other)|
    requires s.displayed.Some? && s.displayed.value.scope != other
    ensures var back := Steps(service, s, [ChangeScope(other), PageArrives, Next, PageArrives, ChangeScope(s.scope)]);
            && back.scope == s.scope && back.counted == s.counted
            && |back.displayedCursors| == 1
            && back.displayed.Some? && back.displayed.value.scope == other
            && back.observedScope == Some(other)
  {
    hide Steps;
    var home := ChangeScope(s.scope);
    var s1 := Step(service, s, ChangeScope(other));
    var s2 := Step(service, s1, PageArrives);
    assert SettledPage(s2) == Some(PageAt(service, other, 0)) && SettledPage(s2).value.hasNext;
    var s3 := Step(service, s2, Next);
    assert |s3.cursors| == 1 && s3.load == Some(Load(other, s3.cursors));
    FiveSteps(service, s, ChangeScope(other), PageArrives, Next, PageArrives, home);
  }

  lemma {:induction false} FiveSteps(service: Service, s: State, a: Operation, b: Operation, c: Operation, d: Operation,
                                     e: Operation)
    ensures Steps(service, s, [a, b, c, d, e])
         == Step(service, Step(service, Step(service, Step(service, Step(service, s, a), b), c), d), e)
  {
    hide Step, Steps;
    var s1 := Step(service, s, a);
    var s2 := Step(service, s1, b);
    var s3 := Step(service, s2, c);
    var s4 := Step(service, s3, d);
    StepsUnfold(service, s, a, [b, c, d, e]);
    StepsUnfold(service, s1, b, [c, d, e]);
    StepsUnfold(service, s2, c, [d, e]);
    StepsUnfold(service, s3, d, [e]);
    StepsUnfold(service, s4, e, []);
    NoSteps(service, Step(service, s4, e));
    assert [a, b, c, d, e] == [a] + [b, c, d, e] && [b, c, d, e] == [b] + [c, d, e];
    assert [c, d, e] == [c] + [d, e] && [d, e] == [d] + [e] && [e] == [e] + [];
  }

  // Across scopes it can exceed it: count scope 0 (5 resources), visit scope 1 and
  // turn to its second page before it is counted, and come back. Until the page of
  // scope 0 arrives, its total is shown as "20+".
  lemma {:induction false} ShownCountCanExceedTotal(service: Service)
    requires service.pageSize == 20 && |service.lists(0)| == 5 && |service.lists(1)| == 60
    ensures var ops := [PageArrives, StartCount, CountArrives(Count(5, false))]
                       + [ChangeScope(1), PageArrives, Next, PageArrives, ChangeScope(0)];
            var s := Exec(service, 0, ops);
            && LegalRun(service, 0, ops)
            && SettledCount(s) == Some(Count(5, false))
            && Shown(service, s) == Count(20, true)
  {
    hide Step, Steps, PageAt, LegalRun;
    var visit := [PageArrives, StartCount, CountArrives(Count(5, false))];
    CountedPage(service, 0, Count(5, false));
    ExecSteps(service, 0, [], visit);
    assert [] + visit == visit;
    ThereAndBack(service, Exec(service, 0, visit), 1);
    ExecSteps(service, 0, visit, [ChangeScope(1), PageArrives, Next, PageArrives, ChangeScope(0)]);
    OneCountIsLegal(service, visit + [ChangeScope(1), PageArrives, Next, PageArrives, ChangeScope(0)]);
  }

  lemma {:induction false} OneCountIsLegal(service: Service, ops: seq<Operation>)
    requires |service.lists(0)| == 5
    requires |ops| >= 3 && ops[..3] == [PageArrives, StartCount, CountArrives(Count(5, false))]
    requires forall i :: 3 <= i < |ops| ==> !ops[i].CountArrives?
    ensures LegalRun(service, 0, ops)
  {
    hide PageAt;
    assert ops[0] == ops[..3][0] && ops[1] == ops[..3][1] && ops[2] == ops[..3][2];
    assert ops[..0] == [] && ops[..1][..0] == [] && ops[..2][..1] == ops[..1];
    assert Exec(service, 0, ops[..1]) == Step(service, Initial(0), PageArrives);
    assert Exec(service, 0, ops[..2]) == Step(service, Exec(service, 0, ops[..1]), StartCount);
    assert Exec(service, 0, ops[..2]).countLoad == Some(CountLoad(0, INITIAL_COUNT_LIMIT));
  }

  // The limit is raised at most five times in a scope, and when it can be raised no
  // more the count is exact or the limit is the highest.
  lemma {:induction false} AtMostFiveIncreases(service: Service, scope: Scope, ops: seq<Operation>)
    requires LegalRun(service, scope, ops)
    ensures var s := Exec(service, scope, ops);
            && s.countLimit == LimitAfter(s.increases)
            && (CanIncreaseCount(s) ==> s.increases < 5)
            && (SettledCount(s).Some? && !CanIncreaseCount(s) ==>
                  SettledCount(s).value.value == |service.lists(s.scope)| || s.countLimit == MAXIMUM_COUNT_LIMIT)
  {
    hide Exec, LegalRun, PageInvariant;
    ExecKeepsInvariant(service, scope, ops);
    LimitReached(Exec(service, scope, ops).increases);
  }

  lemma {:induction false} LimitReached(increases: nat)
    ensures INITIAL_COUNT_LIMIT <= LimitAfter(increases) <= MAXIMUM_COUNT_LIMIT
    ensures LimitAfter(increases) == MAXIMUM_COUNT_LIMIT <==> increases >= 5
  {
    if increases > 5 {
      LimitReached(increases - 1);
    } else {
      assert LimitAfter(1) == 2000 && LimitAfter(2) == 4000 && LimitAfter(3) == 8000 && LimitAfter(4) == 16000;
    }
  }
}
