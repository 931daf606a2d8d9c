// The design preview: one global state, page objects that loads keep hold of while
// they wait, and epoch counters that tell a load whether it has been superseded.
//
// A page object is a position in `groupStore` or `reverseStore`; it is live while
// the page map or the reverse field refers to it. What matters about the data an
// object holds is which requests it came from, so objects hold the parameters that
// those requests carried.
module Preview {
  import opened Wrappers

  type Key = string
  type Resource = string

  datatype Flags = Flags(cache: bool, populate: bool)

  // What the user has chosen: principal (with its type), permission, page size and flags.
  datatype Params = Params(principal: string, permission: string, pageSize: nat, flags: Flags)

  // What a permission check of the inspector and a reverse lookup carry.
  datatype DecisionParams = DecisionParams(resource: Resource, principal: string, flags: Flags)
  datatype ReverseParams = ReverseParams(resource: Resource, permission: string, flags: Flags)

  // The requests that the rows and the count of a group page came from, whether the
  // count is exact, and the marks of requests that wait or have failed.
  datatype GroupPage = GroupPage(
    loading: bool, error: bool, rows: set<Params>,
    counts: set<Params>, exact: bool, countLoading: bool, countError: bool)

  datatype ReversePage = ReversePage(loading: bool, error: bool, rows: set<ReverseParams>)

  const NEW_REVERSE_PAGE := ReversePage(true, false, {})

  datatype Phase = Rows | RootCount | Checks(remaining: nat)

  datatype GroupLoad = GroupLoad(page: nat, epoch: nat, sent: Params, root: bool, first: bool, phase: Phase, waiting: bool)
  datatype CountLoad = CountLoad(key: Key, page: nat, epoch: nat, sent: Params, waiting: bool)
  datatype DecisionLoad = DecisionLoad(token: nat, epoch: nat, sent: DecisionParams, waiting: bool)
  datatype ReverseLoad = ReverseLoad(page: nat, token: nat, epoch: nat, sent: ReverseParams, waiting: bool)

  datatype State = State(
    params: Params,
    reversePermission: string,
    connected: bool,
    seeding: bool,
    epoch: nat,
    inspectorEpoch: nat,
    selected: Option<Resource>,
    pages: map<Key, nat>,
    groupStore: seq<GroupPage>,
    decisions: set<DecisionParams>,
    reverse: Option<nat>,
    reverseStore: seq<ReversePage>,
    groupLoads: seq<GroupLoad>,
    countLoads: seq<CountLoad>,
    decisionLoads: seq<DecisionLoad>,
    reverseLoads: seq<ReverseLoad>)

  // An answer that failed, or succeeded with this many rows of the group's type or with a
  // count that may be exact.
  datatype Answer = Failed | Arrived(rows: nat, exact: bool)

  datatype Operation =
    | Choose(params: Params, connected: bool, keepSelection: bool)   // any choice that resets the scope
    | SeedStarts
    | SeedEnds
    | LoadGroup(key: Key, root: bool, first: bool)
    | GroupAnswers(id: nat, answer: Answer)
    | IncreaseCount(key: Key)
    | CountAnswers(id: nat, answer: Answer)
    | Select(resource: Resource, reversePermission: string, checks: nat)
    | DecisionAnswers(id: nat)
    | ChooseReverse(permission: string)
    | LoadReverse
    | ReverseAnswers(id: nat, ok: bool)

  function Initial(params: Params, reversePermission: string): State {
    State(params, reversePermission, true, false, 0, 0, None, map[], [], {}, None, [], [], [], [], [])
  }

  // resetScope, up to the loads it starts.
  function Reset(s: State, keepSelection: bool): State {
    s.(epoch := s.epoch + 1, inspectorEpoch := s.inspectorEpoch + 1, pages := map[],
       selected := if keepSelection then s.selected else None, decisions := {}, reverse := None)
  }

  predicate GroupLoading(s: State, key: Key) {
    key in s.pages && s.pages[key] < |s.groupStore| && s.groupStore[s.pages[key]].loading
  }

  const NO_PAGE := GroupPage(false, false, {}, {}, false, false, false)

  // loadGroup up to its first request. A count is carried over from the page before.
  function BeginGroup(s: State, key: Key, root: bool, first: bool): State {
    if !s.connected || s.seeding || GroupLoading(s, key) then s
    else
      var previous := if key in s.pages && s.pages[key] < |s.groupStore| then s.groupStore[s.pages[key]] else NO_PAGE;
      s.(groupStore := s.groupStore + [GroupPage(true, false, {}, previous.counts, previous.exact, false, false)],
         pages := s.pages[key := |s.groupStore|],
         groupLoads := s.groupLoads + [GroupLoad(|s.groupStore|, s.epoch, s.params, root, first, Rows, true)])
  }

  // The code after one await of loadGroup, for an answer in time: rows are taken in,
  // then the count of a first root page or the checks of a relation's rows are asked
  // for one by one. Those requests are made with the choices of that moment, except
  // that a root count repeats the query of its rows. After the last one, or a
  // failure, the page stops loading.
  function Reply(load: GroupLoad, page: GroupPage, params: Params, answer: Answer): (GroupPage, GroupLoad) {
    if answer.Failed? then
      (if load.phase.RootCount? then page.(countError := true, loading := false)
       else page.(error := true, loading := false), load.(waiting := false))
    else
      match load.phase
      case Rows =>
        var filled := page.(rows := {load.sent});
        if load.root && load.first then (filled, load.(phase := RootCount))
        else if !load.root && answer.rows > 0 then (filled, load.(phase := Checks(answer.rows), sent := params))
        else (filled.(loading := false), load.(waiting := false))
      case RootCount =>
        (page.(counts := {load.sent}, exact := answer.exact, countError := false, loading := false), load.(waiting := false))
      case Checks(n) =>
        var filled := page.(rows := page.rows + {load.sent});
        if n > 1 then (filled, load.(phase := Checks(n - 1), sent := params))
        else (filled.(loading := false), load.(waiting := false))
  }

  // An answer that comes after the epoch has changed is dropped, except that a count that
  // fails then still marks its page.
  function AnswerGroup(s: State, id: nat, answer: Answer): State {
    if id >= |s.groupLoads| || !s.groupLoads[id].waiting || s.groupLoads[id].page >= |s.groupStore| then s
    else
      var load := s.groupLoads[id];
      if load.epoch != s.epoch then
        var page := s.groupStore[load.page];
        s.(groupLoads := s.groupLoads[id := load.(waiting := false)],
           groupStore := s.groupStore[load.page :=
             if load.phase.RootCount? && answer.Failed? then page.(countError := true) else page])
      else
        var (page, next) := Reply(load, s.groupStore[load.page], s.params, answer);
        s.(groupStore := s.groupStore[load.page := page], groupLoads := s.groupLoads[id := next])
  }

  // increaseCount up to its request, which needs a count that is not exact and not being
  // counted further.
  function BeginCount(s: State, key: Key): State {
    if !s.connected || key !in s.pages || s.pages[key] >= |s.groupStore| then s
    else
      var page := s.groupStore[s.pages[key]];
      if page.counts == {} || page.exact || page.countLoading then s
      else
        s.(countLoads := s.countLoads + [CountLoad(key, s.pages[key], s.epoch, s.params, true)],
           groupStore := s.groupStore[s.pages[key] := page.(countLoading := true)])
  }

  predicate CountIsLive(s: State, load: CountLoad) {
    load.epoch == s.epoch && load.key in s.pages && s.pages[load.key] == load.page
  }

  // The rest of increaseCount. A failure in the same epoch marks the page even if another
  // has taken its place.
  function AnswerCount(s: State, id: nat, answer: Answer): State {
    if id >= |s.countLoads| || !s.countLoads[id].waiting || s.countLoads[id].page >= |s.groupStore| then s
    else
      var load := s.countLoads[id];
      s.(countLoads := s.countLoads[id := load.(waiting := false)],
         groupStore := s.groupStore[load.page :=
           CountedPage(s.groupStore[load.page], load, answer, CountIsLive(s, load), load.epoch == s.epoch)])
  }

  function CountedPage(page: GroupPage, load: CountLoad, answer: Answer, live: bool, inTime: bool): GroupPage {
    match answer
    case Failed =>
      page.(countError := page.countError || inTime, countLoading := page.countLoading && !live)
    case Arrived(_, exact) =>
      if live then page.(counts := {load.sent}, exact := exact, countError := false, countLoading := false) else page
  }

  // selectResource up to its checks.
  function BeginSelect(s: State, resource: Resource, reversePermission: string, checks: nat): State {
    if !s.connected || s.seeding then s
    else
      var token := s.inspectorEpoch + 1;
      var load := DecisionLoad(token, s.epoch, DecisionParams(resource, s.params.principal, s.params.flags), true);
      s.(selected := Some(resource), reversePermission := reversePermission, decisions := {}, reverse := None,
         inspectorEpoch := token, decisionLoads := s.decisionLoads + seq(checks, _ => load))
  }

  function AnswerDecision(s: State, id: nat): State {
    if id >= |s.decisionLoads| || !s.decisionLoads[id].waiting then s
    else
      var load := s.decisionLoads[id];
      var t := s.(decisionLoads := s.decisionLoads[id := load.(waiting := false)]);
      if load.token == s.inspectorEpoch && load.epoch == s.epoch then t.(decisions := s.decisions + {load.sent}) else t
  }

  predicate ReverseLoading(s: State) {
    s.reverse.Some? && s.reverse.value < |s.reverseStore| && s.reverseStore[s.reverse.value].loading
  }

  // loadReverse up to its request.
  function BeginReverse(s: State): State {
    if !s.connected || s.selected.None? || ReverseLoading(s) then s
    else
      var sent := ReverseParams(s.selected.value, s.reversePermission, s.params.flags);
      s.(reverseStore := s.reverseStore + [NEW_REVERSE_PAGE],
         reverse := Some(|s.reverseStore|),
         reverseLoads := s.reverseLoads + [ReverseLoad(|s.reverseStore|, s.inspectorEpoch, s.epoch, sent, true)])
  }

  // The rest of loadReverse: the rows or the error are written to the page object in any
  // case; only the loading mark depends on nothing having happened in between.
  function AnswerReverse(s: State, id: nat, ok: bool): State {
    if id >= |s.reverseLoads| || !s.reverseLoads[id].waiting || s.reverseLoads[id].page >= |s.reverseStore| then s
    else
      var load := s.reverseLoads[id];
      var page := s.reverseStore[load.page];
      var current := load.token == s.inspectorEpoch && load.epoch == s.epoch
                     && load.sent.permission == s.reversePermission && s.reverse == Some(load.page);
      s.(reverseLoads := s.reverseLoads[id := load.(waiting := false)],
         reverseStore := s.reverseStore[load.page :=
           ReversePage(page.loading && !current, page.error || !ok, if ok then {load.sent} else page.rows)])
  }

  function Step(s: State, op: Operation): State {
    match op
    case Choose(params, connected, keep) => Reset(s.(params := params, connected := connected), keep)
    case SeedStarts =>
      // Unlike a reset this keeps the decisions and the reverse page.
      s.(seeding := true, epoch := s.epoch + 1, inspectorEpoch := s.inspectorEpoch + 1, pages := map[], selected := None)
    case SeedEnds => Reset(s.(seeding := false), false)
    case LoadGroup(key, root, first) => BeginGroup(s, key, root, first)
    case GroupAnswers(id, answer) => AnswerGroup(s, id, answer)
    case IncreaseCount(key) => BeginCount(s, key)
    case CountAnswers(id, answer) => AnswerCount(s, id, answer)
    case Select(resource, permission, checks) => BeginSelect(s, resource, permission, checks)
    case DecisionAnswers(id) => AnswerDecision(s, id)
    case ChooseReverse(permission) => BeginReverse(s.(reversePermission := permission, reverse := None))
    case LoadReverse => BeginReverse(s)
    case ReverseAnswers(id, ok) => AnswerReverse(s, id, ok)
  }

  function Exec(start: State, ops: seq<Operation>): State {
    if ops == [] then start else Step(Exec(start, ops[..|ops| - 1]), ops[|ops| - 1])
  }

  // ---------- The global state and its page objects ----------

  class Explorer {
    var params: Params
    var reversePermission: string
    var connected: bool
    var seeding: bool
    var epoch: nat
    var inspectorEpoch: nat
    var selected: Option<Resource>
    var pages: map<Key, nat>
    var groupStore: seq<GroupPage>
    var decisions: set<DecisionParams>
    var reverse: Option<nat>
    var reverseStore: seq<ReversePage>
    ghost var groupLoads: seq<GroupLoad>
    ghost var countLoads: seq<CountLoad>
    ghost var decisionLoads: seq<DecisionLoad>
    ghost var reverseLoads: seq<ReverseLoad>

    constructor (params: Params, reversePermission: string)
      ensures View() == Initial(params, reversePermission)
    {
      this.params, this.reversePermission := params, reversePermission;
      connected, seeding, epoch, inspectorEpoch, selected := true, false, 0, 0, None;
      pages, groupStore, decisions, reverse, reverseStore := map[], [], {}, None, [];
      groupLoads, countLoads, decisionLoads, reverseLoads := [], [], [], [];
    }

    ghost function View(): State
      reads this
    {
      State(params, reversePermission, connected, seeding, epoch, inspectorEpoch, selected, pages, groupStore,
            decisions, reverse, reverseStore, groupLoads, countLoads, decisionLoads, reverseLoads)
    }

    method ResetScope(keepSelection: bool)
      modifies this
      ensures View() == Reset(old(View()), keepSelection)
    {
      if !keepSelection {
        selected := None;
      }
      epoch, inspectorEpoch := epoch + 1, inspectorEpoch + 1;
      pages, decisions, reverse := map[], {}, None;
    }

    method MakeChoice(newParams: Params, nowConnected: bool, keepSelection: bool)
      modifies this
      ensures View() == Step(old(View()), Choose(newParams, nowConnected, keepSelection))
    {
      hide Reset, Reply, AnswerGroup, AnswerCount, BeginGroup, BeginSelect, BeginReverse, AnswerReverse, AnswerDecision,
        BeginCount;
      params, connected := newParams, nowConnected;
      ResetScope(keepSelection);
    }

    method StartSeed()
      modifies this
      ensures View() == Step(old(View()), SeedStarts)
    {
      hide Reset, Reply, AnswerGroup, AnswerCount, BeginGroup, BeginSelect, BeginReverse, AnswerReverse, AnswerDecision, BeginCount;
      seeding, epoch, inspectorEpoch := true, epoch + 1, inspectorEpoch + 1;
      pages, selected := map[], None;
    }

    // loadGroup up to its first await; the page object is what the load keeps.
    method LoadGroupPage(key: Key, root: bool, first: bool) returns (page: Option<nat>)
      requires key in pages ==> pages[key] < |groupStore|
      modifies this`pages, this`groupStore, this`groupLoads
      ensures View() == Step(old(View()), LoadGroup(key, root, first))
      ensures page.Some? ==> key in pages && pages[key] == page.value && page.value == |old(groupStore)|
    {
      hide Reset, Reply, AnswerGroup, AnswerCount, BeginSelect, BeginReverse, AnswerReverse, AnswerDecision, BeginCount;
      var counts: set<Params>, exact := {}, false;
      if !connected || seeding {
        return None;
      }
      if key in pages {
        var previous := groupStore[pages[key]];
        if previous.loading {
          return None;
        }
        counts, exact := previous.counts, previous.exact;
      }
      groupLoads := groupLoads + [GroupLoad(|groupStore|, epoch, params, root, first, Rows, true)];
      pages := pages[key := |groupStore|];
      groupStore := groupStore + [GroupPage(true, false, {}, counts, exact, false, false)];
      return Some(|groupStore| - 1);
    }

    // The code of loadGroup after one await, for the load that is waiting.
    method AnswerGroupPage(ghost id: nat, load: GroupLoad, answer: Answer) returns (next: GroupLoad)
      requires id < |groupLoads| && load == groupLoads[id] && load.waiting && load.page < |groupStore|
      modifies this`groupStore, this`groupLoads
      ensures View() == Step(old(View()), GroupAnswers(id, answer))
      ensures next == groupLoads[id]
    {
      hide Reset, BeginGroup, AnswerCount, BeginSelect, BeginReverse, AnswerReverse, AnswerDecision, BeginCount;
      next := load.(waiting := false);
      var page := groupStore[load.page];
      if answer.Failed? {
        if load.phase.RootCount? {
          page := page.(countError := true);
        } else if load.epoch == epoch {
          page := page.(error := true);
        }
      } else if load.epoch == epoch {
        match load.phase
        case Rows =>
          page := page.(rows := {load.sent});
          if load.root && load.first {
            next := load.(phase := RootCount);
          } else if !load.root && answer.rows > 0 {
            next := load.(phase := Checks(answer.rows), sent := params);
          }
        case RootCount =>
          page := page.(counts := {load.sent}, exact := answer.exact, countError := false);
        case Checks(n) =>
          page := page.(rows := page.rows + {load.sent});
          if n > 1 {
            next := load.(phase := Checks(n - 1), sent := params);
          }
      }
      if load.epoch == epoch && !next.waiting {
        page := page.(loading := false);
      }
      groupStore := groupStore[load.page := page];
      groupLoads := groupLoads[id := next];
    }

    // loadReverse up to its await.
    method LoadReversePage() returns (load: Option<ReverseLoad>)
      requires reverse.Some? ==> reverse.value < |reverseStore|
      modifies this`reverse, this`reverseStore, this`reverseLoads
      ensures View() == Step(old(View()), LoadReverse)
      ensures load.Some? ==> reverseLoads == old(reverseLoads) + [load.value]
    {
      hide Reset, Reply, AnswerGroup, AnswerCount, BeginSelect, BeginGroup, AnswerReverse, AnswerDecision, BeginCount;
      if !connected || selected.None? || (reverse.Some? && reverseStore[reverse.value].loading) {
        return None;
      }
      var sent := ReverseParams(selected.value, reversePermission, params.flags);
      var made := ReverseLoad(|reverseStore|, inspectorEpoch, epoch, sent, true);
      reverse := Some(|reverseStore|);
      reverseStore := reverseStore + [NEW_REVERSE_PAGE];
      reverseLoads := reverseLoads + [made];
      return Some(made);
    }

    // loadReverse after its await.
    method AnswerReversePage(ghost id: nat, load: ReverseLoad, ok: bool)
      requires id < |reverseLoads| && load == reverseLoads[id] && load.waiting && load.page < |reverseStore|
      modifies this`reverseStore, this`reverseLoads
      ensures View() == Step(old(View()), ReverseAnswers(id, ok))
    {
      hide Reset, Reply, AnswerGroup, AnswerCount, BeginSelect, BeginGroup, BeginReverse, AnswerDecision, BeginCount;
      if ok {
        reverseStore := reverseStore[load.page := reverseStore[load.page].(rows := {load.sent})];
      } else {
        reverseStore := reverseStore[load.page := reverseStore[load.page].(error := true)];
      }
      if load.token == inspectorEpoch && load.epoch == epoch
         && load.sent.permission == reversePermission && reverse == Some(load.page) {
        reverseStore := reverseStore[load.page := reverseStore[load.page].(loading := false)];
      }
      reverseLoads := reverseLoads[id := load.(waiting := false)];
    }

    // increaseCount up to its await.
    method IncreasePageCount(key: Key) returns (load: Option<CountLoad>)
      requires key in pages ==> pages[key] < |groupStore|
      modifies this`countLoads, this`groupStore
      ensures View() == Step(old(View()), IncreaseCount(key))
      ensures load.Some? ==> countLoads == old(countLoads) + [load.value]
    {
      hide Reset, Reply, AnswerGroup, AnswerCount, BeginSelect, BeginGroup, BeginReverse, AnswerReverse, AnswerDecision;
      if !connected || key !in pages {
        return None;
      }
      var page := groupStore[pages[key]];
      if page.counts == {} || page.exact || page.countLoading {
        return None;
      }
      groupStore := groupStore[pages[key] := page.(countLoading := true)];
      var made := CountLoad(key, pages[key], epoch, params, true);
      countLoads := countLoads + [made];
      return Some(made);
    }

    // increaseCount after its await.
    method AnswerPageCount(ghost id: nat, load: CountLoad, answer: Answer)
      requires id < |countLoads| && load == countLoads[id] && load.waiting && load.page < |groupStore|
      modifies this`groupStore, this`countLoads
      ensures View() == Step(old(View()), CountAnswers(id, answer))
    {
      hide Reset, Reply, AnswerGroup, BeginSelect, BeginGroup, BeginReverse, AnswerReverse, AnswerDecision, BeginCount;
      countLoads := countLoads[id := load.(waiting := false)];
      var page := groupStore[load.page];
      if answer.Arrived? {
        if load.epoch != epoch || load.key !in pages || pages[load.key] != load.page {
          assert groupStore[load.page := page] == groupStore;
          return;
        }
        page := page.(counts := {load.sent}, exact := answer.exact, countError := false);
      } else if load.epoch == epoch {
        page := page.(countError := true);
      }
      if load.epoch == epoch && load.key in pages && pages[load.key] == load.page {
        page := page.(countLoading := false);
      }
      groupStore := groupStore[load.page := page];
    }

    // selectResource up to its checks, of which there is one for each permission.
    method SelectResource(resource: Resource, permission: string, checks: nat)
      modifies this`selected, this`reversePermission, this`decisions, this`reverse, this`inspectorEpoch, this`decisionLoads
      ensures View() == Step(old(View()), Select(resource, permission, checks))
    {
      hide Reset, Reply, AnswerGroup, AnswerCount, BeginGroup, BeginReverse, AnswerReverse, AnswerDecision, BeginCount;
      if !connected || seeding {
        return;
      }
      selected, reversePermission := Some(resource), permission;
      decisions, reverse, inspectorEpoch := {}, None, inspectorEpoch + 1;
      ghost var load := DecisionLoad(inspectorEpoch, epoch, DecisionParams(resource, params.principal, params.flags), true);
      decisionLoads := decisionLoads + seq(checks, _ => load);
    }

    // One check after its await.
    method AnswerCheck(ghost id: nat, load: DecisionLoad)
      requires id < |decisionLoads| && load == decisionLoads[id] && load.waiting
      modifies this`decisions, this`decisionLoads
      ensures View() == Step(old(View()), DecisionAnswers(id))
    {
      hide Reset, Reply, AnswerGroup, AnswerCount, BeginSelect, BeginGroup, BeginReverse, AnswerReverse, BeginCount;
      decisionLoads := decisionLoads[id := load.(waiting := false)];
      if load.token == inspectorEpoch && load.epoch == epoch {
        decisions := decisions + {load.sent};
      }
    }
  }

  // ---------- The invariant ----------

  predicate Holds(page: GroupPage, params: Params) { page.rows <= {params} && page.counts <= {params} }

  // Live pages hold data of the current choices. A waiting load of this epoch has
  // sent the current choices; one of an earlier epoch has only a detached page.
  predicate GroupsOk(s: State) {
    && (forall key :: key in s.pages ==> s.pages[key] < |s.groupStore| && Holds(s.groupStore[s.pages[key]], s.params))
    && (forall key, key' :: key in s.pages && key' in s.pages && s.pages[key] == s.pages[key'] ==> key == key')
    && (forall i :: 0 <= i < |s.groupLoads| && s.groupLoads[i].waiting ==> GroupLoadOk(s, s.groupLoads[i]))
    && (forall i :: 0 <= i < |s.countLoads| && s.countLoads[i].waiting ==> CountLoadOk(s, s.countLoads[i]))
  }

  predicate GroupLoadOk(s: State, load: GroupLoad) {
    && load.page < |s.groupStore|
    && load.epoch <= s.epoch
    && (load.epoch == s.epoch ==> load.sent == s.params)
    && (load.epoch < s.epoch ==> forall key :: key in s.pages ==> s.pages[key] != load.page)
  }

  predicate CountLoadOk(s: State, load: CountLoad) {
    && load.page < |s.groupStore|
    && load.epoch <= s.epoch
    && (load.epoch == s.epoch ==> load.sent == s.params)
    && (forall key :: key in s.pages && s.pages[key] == load.page ==> key == load.key && load.epoch == s.epoch)
  }

  predicate DecisionsOk(s: State) {
    && (forall d :: d in s.decisions ==> DecisionCurrent(s, d))
    && (forall i :: 0 <= i < |s.decisionLoads| && s.decisionLoads[i].waiting ==> DecisionLoadOk(s, s.decisionLoads[i]))
  }

  // The resource is the selected one, unless a seed has dropped the selection.
  predicate DecisionCurrent(s: State, d: DecisionParams) {
    d.principal == s.params.principal && d.flags == s.params.flags && (s.selected.Some? ==> d.resource == s.selected.value)
  }

  predicate DecisionLoadOk(s: State, load: DecisionLoad) {
    load.token <= s.inspectorEpoch && load.epoch <= s.epoch
    && (load.token == s.inspectorEpoch && load.epoch == s.epoch ==> DecisionCurrent(s, load.sent))
  }

  predicate ReverseCurrent(s: State, sent: ReverseParams) {
    && sent.flags == s.params.flags
    && sent.permission == s.reversePermission
    && (s.selected.Some? ==> sent.resource == s.selected.value)
  }

  predicate ReverseOk(s: State) {
    && (s.reverse.Some? ==>
          && s.reverse.value < |s.reverseStore|
          && forall r :: r in s.reverseStore[s.reverse.value].rows ==> ReverseCurrent(s, r))
    && |s.reverseLoads| == |s.reverseStore|
    && (forall i :: 0 <= i < |s.reverseLoads| ==> s.reverseLoads[i].page == i)
    && (forall i :: 0 <= i < |s.reverseLoads| && s.reverseLoads[i].waiting ==> ReverseLoadOk(s, s.reverseLoads[i]))
    && (s.seeding ==> s.selected.None?)
  }

  // A waiting reverse load has a page of its own, as yet untouched. If that page is live,
  // the load has sent the current choices, and it is superseded by nothing but the start
  // of a seed.
  predicate ReverseLoadOk(s: State, load: ReverseLoad) {
    && load.page < |s.reverseStore| && s.reverseStore[load.page] == NEW_REVERSE_PAGE
    && load.token <= s.inspectorEpoch && load.epoch <= s.epoch
    && (s.reverse == Some(load.page) ==>
          ReverseCurrent(s, load.sent) && (!s.seeding ==> load.token == s.inspectorEpoch && load.epoch == s.epoch))
  }

  predicate Invariant(s: State) { GroupsOk(s) && DecisionsOk(s) && ReverseOk(s) }

  lemma {:induction false} ResetKeeps(s: State, params: Params, connected: bool, seeding: bool, keep: bool)
    requires Invariant(s) && (seeding ==> s.seeding)
    ensures Invariant(Reset(s.(params := params, connected := connected, seeding := seeding), keep))
  {
    var u := Reset(s.(params := params, connected := connected, seeding := seeding), keep);
    forall i | 0 <= i < |u.groupLoads| && u.groupLoads[i].waiting ensures GroupLoadOk(u, u.groupLoads[i]) {
      assert GroupLoadOk(s, s.groupLoads[i]);
    }
    forall i | 0 <= i < |u.countLoads| && u.countLoads[i].waiting ensures CountLoadOk(u, u.countLoads[i]) {
      assert CountLoadOk(s, s.countLoads[i]);
    }
    forall i | 0 <= i < |u.decisionLoads| && u.decisionLoads[i].waiting ensures DecisionLoadOk(u, u.decisionLoads[i]) {
      assert DecisionLoadOk(s, s.decisionLoads[i]);
    }
    forall i | 0 <= i < |u.reverseLoads| && u.reverseLoads[i].waiting ensures ReverseLoadOk(u, u.reverseLoads[i]) {
      assert ReverseLoadOk(s, s.reverseLoads[i]);
    }
  }

  lemma {:induction false} SeedKeeps(s: State)
    requires Invariant(s)
    ensures Invariant(Step(s, SeedStarts))
  {
    var u := Step(s, SeedStarts);
    forall i | 0 <= i < |u.groupLoads| && u.groupLoads[i].waiting ensures GroupLoadOk(u, u.groupLoads[i]) {
      assert GroupLoadOk(s, s.groupLoads[i]);
    }
    forall i | 0 <= i < |u.countLoads| && u.countLoads[i].waiting ensures CountLoadOk(u, u.countLoads[i]) {
      assert CountLoadOk(s, s.countLoads[i]);
    }
    forall i | 0 <= i < |u.decisionLoads| && u.decisionLoads[i].waiting ensures DecisionLoadOk(u, u.decisionLoads[i]) {
      assert DecisionLoadOk(s, s.decisionLoads[i]);
    }
    forall i | 0 <= i < |u.reverseLoads| && u.reverseLoads[i].waiting ensures ReverseLoadOk(u, u.reverseLoads[i]) {
      assert ReverseLoadOk(s, s.reverseLoads[i]);
    }
  }

  // The parts of the state that DecisionsOk and ReverseOk read.
  predicate SameDecisions(s: State, u: State) {
    && u.params == s.params && u.epoch == s.epoch && u.inspectorEpoch == s.inspectorEpoch && u.selected == s.selected
    && u.decisions == s.decisions && u.decisionLoads == s.decisionLoads
  }

  predicate SameReverse(s: State, u: State) {
    && u.params == s.params && u.reversePermission == s.reversePermission && u.seeding == s.seeding
    && u.epoch == s.epoch && u.inspectorEpoch == s.inspectorEpoch && u.selected == s.selected
    && u.reverse == s.reverse && u.reverseStore == s.reverseStore && u.reverseLoads == s.reverseLoads
  }

  lemma {:induction false} DecisionsStay(s: State, u: State)
    requires DecisionsOk(s) && SameDecisions(s, u)
    ensures DecisionsOk(u)
  {
    forall i | 0 <= i < |u.decisionLoads| && u.decisionLoads[i].waiting ensures DecisionLoadOk(u, u.decisionLoads[i]) {
      assert DecisionLoadOk(s, s.decisionLoads[i]);
    }
  }

  lemma {:induction false} ReverseStays(s: State, u: State)
    requires ReverseOk(s) && SameReverse(s, u)
    ensures ReverseOk(u)
  {
    forall i | 0 <= i < |u.reverseLoads| && u.reverseLoads[i].waiting ensures ReverseLoadOk(u, u.reverseLoads[i]) {
      assert ReverseLoadOk(s, s.reverseLoads[i]);
    }
  }

  lemma {:induction false} InspectorStays(s: State, u: State)
    requires Invariant(s) && SameDecisions(s, u) && SameReverse(s, u)
    ensures DecisionsOk(u) && ReverseOk(u)
  {
    hide DecisionsOk, ReverseOk, GroupsOk;
    DecisionsStay(s, u);
    ReverseStays(s, u);
  }

  // The parts of the state that GroupsOk reads.
  predicate SameGroups(s: State, u: State) {
    && u.params == s.params && u.epoch == s.epoch && u.pages == s.pages && u.groupStore == s.groupStore
    && u.groupLoads == s.groupLoads && u.countLoads == s.countLoads
  }

  lemma {:induction false} GroupsStay(s: State, u: State)
    requires Invariant(s) && SameGroups(s, u)
    ensures GroupsOk(u)
  {
    forall i | 0 <= i < |u.groupLoads| && u.groupLoads[i].waiting ensures GroupLoadOk(u, u.groupLoads[i]) {
      assert GroupLoadOk(s, s.groupLoads[i]);
    }
    forall i | 0 <= i < |u.countLoads| && u.countLoads[i].waiting ensures CountLoadOk(u, u.countLoads[i]) {
      assert CountLoadOk(s, s.countLoads[i]);
    }
  }

  lemma {:induction false} BeginGroupKeeps(s: State, key: Key, root: bool, first: bool)
    requires Invariant(s)
    ensures Invariant(BeginGroup(s, key, root, first))
  {
    var u := BeginGroup(s, key, root, first);
    InspectorStays(s, u);
    forall i | 0 <= i < |u.groupLoads| && u.groupLoads[i].waiting ensures GroupLoadOk(u, u.groupLoads[i]) {
      if i < |s.groupLoads| {
        assert GroupLoadOk(s, s.groupLoads[i]);
      }
    }
    forall i | 0 <= i < |u.countLoads| && u.countLoads[i].waiting ensures CountLoadOk(u, u.countLoads[i]) {
      assert CountLoadOk(s, s.countLoads[i]);
    }
  }

  // A load in time keeps to its page, which takes in nothing but what the load has sent.
  lemma {:induction false} ReplyKeeps(load: GroupLoad, page: GroupPage, params: Params, answer: Answer)
    requires load.sent == params
    ensures var (page', next) := Reply(load, page, params, answer);
            && next.page == load.page && next.epoch == load.epoch && next.sent == params
            && (Holds(page, params) ==> Holds(page', params))
  {
  }

  lemma {:induction false} AnswerGroupKeeps(s: State, id: nat, answer: Answer)
    requires Invariant(s)
    ensures Invariant(AnswerGroup(s, id, answer))
  {
    hide Reply, DecisionsOk, ReverseOk, Holds;
    var u := AnswerGroup(s, id, answer);
    InspectorStays(s, u);
    if id < |s.groupLoads| && s.groupLoads[id].waiting {
      var load := s.groupLoads[id];
      assert GroupLoadOk(s, load);
      if load.epoch == s.epoch {
        ReplyKeeps(load, s.groupStore[load.page], s.params, answer);
        forall i | 0 <= i < |u.groupLoads| && u.groupLoads[i].waiting ensures GroupLoadOk(u, u.groupLoads[i]) {
          if i != id {
            assert GroupLoadOk(s, s.groupLoads[i]);
          }
        }
        forall i | 0 <= i < |u.countLoads| && u.countLoads[i].waiting ensures CountLoadOk(u, u.countLoads[i]) {
          assert CountLoadOk(s, s.countLoads[i]);
        }
      } else {
        var page := s.groupStore[load.page];
        DroppedLoadKeeps(s, id, if load.phase.RootCount? && answer.Failed? then page.(countError := true) else page);
      }
    }
  }

  // A load of an earlier epoch writes at most to a detached page.
  lemma {:induction false} DroppedLoadKeeps(s: State, id: nat, page: GroupPage)
    requires Invariant(s) && id < |s.groupLoads| && s.groupLoads[id].waiting && s.groupLoads[id].epoch < s.epoch
    requires GroupLoadOk(s, s.groupLoads[id])
    ensures Invariant(s.(groupLoads := s.groupLoads[id := s.groupLoads[id].(waiting := false)],
                         groupStore := s.groupStore[s.groupLoads[id].page := page]))
  {
    hide DecisionsOk, ReverseOk, Holds;
    var u := s.(groupLoads := s.groupLoads[id := s.groupLoads[id].(waiting := false)],
                groupStore := s.groupStore[s.groupLoads[id].page := page]);
    InspectorStays(s, u);
    forall i | 0 <= i < |u.groupLoads| && u.groupLoads[i].waiting ensures GroupLoadOk(u, u.groupLoads[i]) {
      assert GroupLoadOk(s, s.groupLoads[i]);
    }
    forall i | 0 <= i < |u.countLoads| && u.countLoads[i].waiting ensures CountLoadOk(u, u.countLoads[i]) {
      assert CountLoadOk(s, s.countLoads[i]);
    }
  }

  lemma {:induction false} BeginCountKeeps(s: State, key: Key)
    requires Invariant(s)
    ensures Invariant(BeginCount(s, key))
  {
    var u := BeginCount(s, key);
    InspectorStays(s, u);
    forall i | 0 <= i < |s.groupLoads| && s.groupLoads[i].waiting ensures GroupLoadOk(u, u.groupLoads[i]) {
      assert GroupLoadOk(s, s.groupLoads[i]);
    }
    forall i | 0 <= i < |u.countLoads| && u.countLoads[i].waiting ensures CountLoadOk(u, u.countLoads[i]) {
      if i < |s.countLoads| {
        assert CountLoadOk(s, s.countLoads[i]);
      }
    }
  }

  lemma {:induction false} CountedHolds(
    page: GroupPage, load: CountLoad, answer: Answer, live: bool, inTime: bool, params: Params)
    requires live ==> load.sent == params
    ensures Holds(page, params) ==> Holds(CountedPage(page, load, answer, live, inTime), params)
  {
  }

  lemma {:induction false} AnswerCountKeeps(s: State, id: nat, answer: Answer)
    requires Invariant(s)
    ensures Invariant(AnswerCount(s, id, answer))
  {
    hide DecisionsOk, ReverseOk, CountedPage, Holds;
    var u := AnswerCount(s, id, answer);
    InspectorStays(s, u);
    if id < |s.countLoads| && s.countLoads[id].waiting {
      var load := s.countLoads[id];
      assert CountLoadOk(s, load);
      CountedHolds(s.groupStore[load.page], load, answer, CountIsLive(s, load), load.epoch == s.epoch, s.params);
    }
    forall i | 0 <= i < |s.groupLoads| && s.groupLoads[i].waiting ensures GroupLoadOk(u, u.groupLoads[i]) {
      assert GroupLoadOk(s, s.groupLoads[i]);
    }
    forall i | 0 <= i < |u.countLoads| && u.countLoads[i].waiting ensures CountLoadOk(u, u.countLoads[i]) {
      assert CountLoadOk(s, s.countLoads[i]);
    }
  }

  lemma {:induction false} SelectKeeps(s: State, resource: Resource, permission: string, checks: nat)
    requires Invariant(s)
    ensures Invariant(BeginSelect(s, resource, permission, checks))
  {
    var u := BeginSelect(s, resource, permission, checks);
    GroupsStay(s, u);
    forall i | 0 <= i < |u.decisionLoads| && u.decisionLoads[i].waiting ensures DecisionLoadOk(u, u.decisionLoads[i]) {
      if i < |s.decisionLoads| {
        assert DecisionLoadOk(s, s.decisionLoads[i]);
      }
    }
    forall i | 0 <= i < |u.reverseLoads| && u.reverseLoads[i].waiting ensures ReverseLoadOk(u, u.reverseLoads[i]) {
      assert ReverseLoadOk(s, s.reverseLoads[i]);
    }
  }

  lemma {:induction false} DecisionKeeps(s: State, id: nat)
    requires Invariant(s)
    ensures Invariant(AnswerDecision(s, id))
  {
    hide GroupsOk, ReverseOk;
    var u := AnswerDecision(s, id);
    GroupsStay(s, u);
    ReverseStays(s, u);
    if id < |s.decisionLoads| && s.decisionLoads[id].waiting {
      assert DecisionLoadOk(s, s.decisionLoads[id]);
    }
    forall i | 0 <= i < |u.decisionLoads| && u.decisionLoads[i].waiting ensures DecisionLoadOk(u, u.decisionLoads[i]) {
      assert DecisionLoadOk(s, s.decisionLoads[i]);
    }
  }

  lemma {:induction false} BeginReverseKeeps(s: State, t: State)
    requires Invariant(s)
    requires t == s || (exists permission :: t == s.(reversePermission := permission, reverse := None))
    ensures Invariant(BeginReverse(t))
  {
    var u := BeginReverse(t);
    GroupsStay(s, u);
    forall i | 0 <= i < |u.decisionLoads| && u.decisionLoads[i].waiting ensures DecisionLoadOk(u, u.decisionLoads[i]) {
      assert DecisionLoadOk(s, s.decisionLoads[i]);
    }
    forall i | 0 <= i < |u.reverseLoads| && u.reverseLoads[i].waiting ensures ReverseLoadOk(u, u.reverseLoads[i]) {
      if i < |s.reverseLoads| {
        assert ReverseLoadOk(s, s.reverseLoads[i]);
      }
    }
  }

  lemma {:induction false} AnswerReverseKeeps(s: State, id: nat, ok: bool)
    requires Invariant(s)
    ensures Invariant(AnswerReverse(s, id, ok))
  {
    hide GroupsOk, DecisionsOk;
    var u := AnswerReverse(s, id, ok);
    GroupsStay(s, u);
    DecisionsStay(s, u);
    if id < |s.reverseLoads| && s.reverseLoads[id].waiting {
      assert ReverseLoadOk(s, s.reverseLoads[id]);
    }
    forall i | 0 <= i < |u.reverseLoads| && u.reverseLoads[i].waiting ensures ReverseLoadOk(u, u.reverseLoads[i]) {
      assert ReverseLoadOk(s, s.reverseLoads[i]);
    }
  }

  lemma {:induction false} StepKeepsInvariant(s: State, op: Operation)
    requires Invariant(s)
    ensures Invariant(Step(s, op))
  {
    hide Invariant, Reset, BeginGroup, AnswerGroup, BeginCount, AnswerCount, BeginSelect, AnswerDecision, BeginReverse,
      AnswerReverse;
    match op
    case Choose(params, connected, keep) => ResetKeeps(s, params, connected, s.seeding, keep);
    case SeedStarts => SeedKeeps(s);
    case SeedEnds => ResetKeeps(s, s.params, s.connected, false, false);
    case LoadGroup(key, root, first) => BeginGroupKeeps(s, key, root, first);
    case GroupAnswers(id, answer) => AnswerGroupKeeps(s, id, answer);
    case IncreaseCount(key) => BeginCountKeeps(s, key);
    case CountAnswers(id, answer) => AnswerCountKeeps(s, id, answer);
    case Select(resource, permission, checks) => SelectKeeps(s, resource, permission, checks);
    case DecisionAnswers(id) => DecisionKeeps(s, id);
    case ChooseReverse(permission) => BeginReverseKeeps(s, s.(reversePermission := permission, reverse := None));
    case LoadReverse => BeginReverseKeeps(s, s);
    case ReverseAnswers(id, ok) => AnswerReverseKeeps(s, id, ok);
  }

  lemma {:induction false} ExecKeepsInvariant(start: State, ops: seq<Operation>)
    requires Invariant(start)
    ensures Invariant(Exec(start, ops))
  {
    hide Invariant, Step;
    if ops != [] {
      ExecKeepsInvariant(start, ops[..|ops| - 1]);
      StepKeepsInvariant(Exec(start, ops[..|ops| - 1]), ops[|ops| - 1]);
    }
  }

  // ---------- Main results ----------

  // In every interleaving of choices, loads and answers, what the live pages, the
  // decisions and the reverse page hold came from requests that carried the
  // current choices.
  lemma {:induction false} HeldDataIsCurrent(params: Params, permission: string, ops: seq<Operation>)
    ensures var s := Exec(Initial(params, permission), ops);
            && (forall key :: key in s.pages ==> s.pages[key] < |s.groupStore| && Holds(s.groupStore[s.pages[key]], s.params))
            && (forall d :: d in s.decisions ==> DecisionCurrent(s, d))
            && (s.reverse.Some? ==>
                  && s.reverse.value < |s.reverseStore|
                  && forall r :: r in s.reverseStore[s.reverse.value].rows ==> ReverseCurrent(s, r))
  {
    assert Invariant(Initial(params, permission));
    hide Step, Exec;
    ExecKeepsInvariant(Initial(params, permission), ops);
  }

  // What is on display: the live pages, the decisions and the live reverse page.
  predicate SameDisplay(s: State, u: State)
    requires Invariant(s)
  {
    && u.pages == s.pages && u.decisions == s.decisions && u.reverse == s.reverse
    && (forall key :: key in s.pages ==> s.pages[key] < |u.groupStore| && u.groupStore[s.pages[key]] == s.groupStore[s.pages[key]])
    && (s.reverse.Some? ==>
          s.reverse.value < |u.reverseStore| && u.reverseStore[s.reverse.value] == s.reverseStore[s.reverse.value])
  }

  // The answer belongs to a load that a later choice, selection, seed or page has superseded.
  predicate Superseded(s: State, op: Operation) {
    match op
    case GroupAnswers(id, _) => id < |s.groupLoads| && s.groupLoads[id].epoch != s.epoch
    case CountAnswers(id, _) => id < |s.countLoads| && !CountIsLive(s, s.countLoads[id])
    case DecisionAnswers(id) =>
      id < |s.decisionLoads| && (s.decisionLoads[id].token != s.inspectorEpoch || s.decisionLoads[id].epoch != s.epoch)
    case ReverseAnswers(id, _) =>
      id < |s.reverseLoads| &&
      var load := s.reverseLoads[id];
      load.token != s.inspectorEpoch || load.epoch != s.epoch || load.sent.permission != s.reversePermission
      || s.reverse != Some(load.page)
    case _ => false
  }

  // The answer belongs to a waiting reverse load whose page is the live one.
  predicate AnswersLiveReversePage(s: State, op: Operation) {
    && op.ReverseAnswers? && op.id < |s.reverseLoads|
    && s.reverseLoads[op.id].waiting && s.reverse == Some(s.reverseLoads[op.id].page)
  }

  lemma {:induction false} LateGroupIsDetached(s: State, id: nat, answer: Answer)
    requires Invariant(s) && Superseded(s, GroupAnswers(id, answer))
    ensures SameDisplay(s, Step(s, GroupAnswers(id, answer)))
  {
    hide BeginGroup, BeginCount, BeginSelect, BeginReverse, Reset, Reply, Holds, DecisionCurrent;
    if s.groupLoads[id].waiting {
      assert GroupLoadOk(s, s.groupLoads[id]);
    }
  }

  lemma {:induction false} LateCountIsDetached(s: State, id: nat, answer: Answer)
    requires Invariant(s) && Superseded(s, CountAnswers(id, answer))
    ensures SameDisplay(s, Step(s, CountAnswers(id, answer)))
  {
    hide BeginGroup, BeginCount, BeginSelect, BeginReverse, Reset, Reply, Holds, DecisionCurrent;
    if s.countLoads[id].waiting {
      assert CountLoadOk(s, s.countLoads[id]);
    }
  }

  lemma {:induction false} LateDecisionIsDropped(s: State, id: nat)
    requires Invariant(s) && Superseded(s, DecisionAnswers(id))
    ensures SameDisplay(s, Step(s, DecisionAnswers(id)))
  {
    hide BeginGroup, BeginCount, BeginSelect, BeginReverse, Reset, Reply, Holds, DecisionCurrent;
  }

  lemma {:induction false} LateReverseWrites(s: State, id: nat, ok: bool)
    requires Invariant(s) && Superseded(s, ReverseAnswers(id, ok))
    ensures var op := ReverseAnswers(id, ok);
            && (SameDisplay(s, Step(s, op)) <==> !AnswersLiveReversePage(s, op))
            && (AnswersLiveReversePage(s, op) ==> s.seeding)
  {
    hide BeginGroup, BeginCount, BeginSelect, BeginReverse, Reset, Reply, Holds, DecisionCurrent;
    if s.reverseLoads[id].waiting {
      assert ReverseLoadOk(s, s.reverseLoads[id]);
    }
  }

  // An answer to a superseded load leaves the display as it was, whether it has succeeded
  // or failed, unless it belongs to a waiting reverse load whose page is still live. Then
  // the display does change, and that happens only during a seed.
  lemma {:induction false} SupersededLoadsAreDetached(s: State, op: Operation)
    requires Invariant(s) && Superseded(s, op)
    ensures SameDisplay(s, Step(s, op)) <==> !AnswersLiveReversePage(s, op)
    ensures AnswersLiveReversePage(s, op) ==> s.seeding
  {
    hide Step, BeginGroup, BeginCount, BeginSelect, BeginReverse, Reset, Reply, Holds, DecisionCurrent, AnswerGroup,
      AnswerCount, AnswerReverse, AnswerDecision, Invariant, SameDisplay;
    match op
    case GroupAnswers(id, answer) => LateGroupIsDetached(s, id, answer);
    case CountAnswers(id, answer) => LateCountIsDetached(s, id, answer);
    case DecisionAnswers(id) => LateDecisionIsDropped(s, id);
    case ReverseAnswers(id, ok) => LateReverseWrites(s, id, ok);
  }

  // A selection without checks, its reverse load, and a seed.
  lemma {:induction false} SeededState(params: Params, resource: Resource)
    ensures Exec(Initial(params, "view"), [Select(resource, "view", 0), LoadReverse, SeedStarts])
         == State(params, "view", true, true, 1, 2, None, map[], [], {}, Some(0), [NEW_REVERSE_PAGE], [], [], [],
                  [ReverseLoad(0, 1, 0, ReverseParams(resource, "view", params.flags), true)])
  {
    var ops := [Select(resource, "view", 0), LoadReverse, SeedStarts];
    assert ops[..3] == ops && ops[..2] == [ops[0], ops[1]] && ops[..1] == [ops[0]];
    var s1 := Step(Initial(params, "view"), ops[0]);
    assert Exec(Initial(params, "view"), [ops[0]]) == s1 by { assert [ops[0]][..0] == []; }
    var s2 := Step(s1, LoadReverse);
    assert Exec(Initial(params, "view"), [ops[0], ops[1]]) == s2 by { assert [ops[0], ops[1]][..1] == [ops[0]]; }
    assert Exec(Initial(params, "view"), ops) == Step(s2, SeedStarts) by { assert ops[..2] == [ops[0], ops[1]]; }
    assert s1.decisionLoads == [] && s2.reverseStore == [NEW_REVERSE_PAGE];
  }

  // The exception happens: a seed starts while the reverse page loads. The answer, be it
  // rows or an error, is written to the page on display, which stays marked as loading.
  lemma {:induction false} SeedLeavesReversePageLive(params: Params, resource: Resource)
    ensures var s := Exec(Initial(params, "view"), [Select(resource, "view", 0), LoadReverse, SeedStarts]);
            var u, v := Step(s, ReverseAnswers(0, true)), Step(s, ReverseAnswers(0, false));
            && Superseded(s, ReverseAnswers(0, true)) && Superseded(s, ReverseAnswers(0, false))
            && s.reverse == u.reverse == v.reverse == Some(0)
            && s.reverseStore == [ReversePage(true, false, {})]
            && u.reverseStore == [ReversePage(true, false, {ReverseParams(resource, "view", params.flags)})]
            && v.reverseStore == [ReversePage(true, true, {})]
  {
    SeededState(params, resource);
    hide Exec, Reset, BeginGroup, AnswerGroup, BeginCount, AnswerCount, BeginSelect, AnswerDecision, BeginReverse;
  }
}
