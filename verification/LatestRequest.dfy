// Last request wins: a run is abandoned as soon as a later run or an abort happens.
//
// Between two awaits the code runs to completion, so each operation below is the
// stretch of code from one await to the next.
module LatestRequests {
  import opened Wrappers

  // An abort controller and the run it was made for.
  datatype Controller = Controller(sequence: nat, aborted: bool, settled: bool)

  // The two private fields, the controllers made so far, and the sequence numbers
  // of the runs that have succeeded.
  datatype State = State(controller: Option<nat>, sequence: nat, controllers: seq<Controller>, successes: seq<nat>)

  datatype Operation =
    | Begin                          // run, up to its await
    | Settle(id: nat, ok: bool)      // the dispatcher of one run has settled
    | Abort

  const INITIAL := State(None, 0, [], [])

  function Aborted(controllers: seq<Controller>, controller: Option<nat>): (r: seq<Controller>)
    ensures |r| == |controllers|
  {
    if controller.Some? && controller.value < |controllers|
    then controllers[controller.value := controllers[controller.value].(aborted := true)]
    else controllers
  }

  // Whether settling this run now makes it succeed.
  predicate Succeeds(s: State, id: nat, ok: bool) {
    id < |s.controllers| && !s.controllers[id].settled && ok && s.controllers[id].sequence == s.sequence
  }

  function Step(s: State, op: Operation): State {
    match op
    case Begin =>
      s.(controllers := Aborted(s.controllers, s.controller) + [Controller(s.sequence + 1, false, false)],
         sequence := s.sequence + 1,
         controller := Some(|s.controllers|))
    case Settle(id, ok) =>
      if id >= |s.controllers| || s.controllers[id].settled then s
      else
        s.(controllers := s.controllers[id := s.controllers[id].(settled := true)],
           successes := if Succeeds(s, id, ok) then s.successes + [s.sequence] else s.successes,
           controller := if s.controllers[id].sequence == s.sequence then None else s.controller)
    case Abort =>
      s.(controllers := Aborted(s.controllers, s.controller), controller := None, sequence := s.sequence + 1)
  }

  function Exec(ops: seq<Operation>): State {
    if ops == [] then INITIAL else Step(Exec(ops[..|ops| - 1]), ops[|ops| - 1])
  }

  // ---------- The class ----------

  class LatestRequest {
    var controller: Option<nat>
    var sequence: nat
    var controllers: seq<Controller>
    ghost var successes: seq<nat>

    constructor ()
      ensures View() == INITIAL
    {
      controller, sequence, controllers, successes := None, 0, [], [];
    }

    ghost function View(): State
      reads this
    {
      State(controller, sequence, controllers, successes)
    }

    method AbortController()
      modifies this`controllers
      ensures controllers == Aborted(old(controllers), controller)
    {
      if controller.Some? && controller.value < |controllers| {
        var id := controller.value;
        controllers := controllers[id := controllers[id].(aborted := true)];
      }
    }

    // The first half of run; the result identifies the controller it awaits with.
    method BeginRun() returns (id: nat)
      modifies this
      ensures View() == Step(old(View()), Begin) && id == |old(controllers)|
    {
      AbortController();
      id := |controllers|;
      sequence := sequence + 1;
      controllers := controllers + [Controller(sequence, false, false)];
      controller := Some(id);
    }

    // The second half of run, once the dispatcher has returned or thrown.
    method SettleRun(id: nat, ok: bool) returns (success: bool)
      requires id < |controllers| && !controllers[id].settled
      modifies this
      ensures View() == Step(old(View()), Settle(id, ok))
      ensures success == Succeeds(old(View()), id, ok)
    {
      var mine := controllers[id].sequence;
      success := ok && mine == sequence;
      if success {
        successes := successes + [mine];
      }
      if mine == sequence {
        controller := None;
      }
      controllers := controllers[id := controllers[id].(settled := true)];
    }

    method AbortAll()
      modifies this
      ensures View() == Step(old(View()), Abort)
    {
      AbortController();
      controller := None;
      sequence := sequence + 1;
    }
  }

  // ---------- Every interleaving ----------

  predicate Increasing(s: seq<nat>) { forall i, j :: 0 <= i < j < |s| ==> s[i] < s[j] }

  predicate Invariant(s: State) {
    var cs := s.controllers;
    && (forall i, j :: 0 <= i < j < |cs| ==> cs[i].sequence < cs[j].sequence)
    && (forall i :: 0 <= i < |cs| ==> cs[i].sequence <= s.sequence)
    && (s.controller.Some? ==>
          s.controller.value < |cs| && cs[s.controller.value].sequence == s.sequence && !cs[s.controller.value].settled)
    // Of the runs that are still waiting, all but the current one have been aborted.
    && (forall i :: 0 <= i < |cs| && !cs[i].settled ==> (cs[i].aborted <==> s.controller != Some(i)))
    // A run with the current number still waits only as the current one.
    && (forall i :: 0 <= i < |cs| && !cs[i].settled && cs[i].sequence == s.sequence ==> s.controller == Some(i))
    // Successes come in strictly increasing order, each from a run that has settled.
    && Increasing(s.successes)
    && (forall i :: 0 <= i < |s.successes| ==> s.successes[i] <= s.sequence)
    && (s.sequence in s.successes ==> s.controller.None?)
  }

  lemma {:induction false} StepKeepsInvariant(s: State, op: Operation)
    requires Invariant(s)
    ensures Invariant(Step(s, op))
  {
    match op
    case Begin => BeginKeepsInvariant(s);
    case Settle(id, ok) => SettleKeepsInvariant(s, id, ok);
    case Abort =>
  }

  lemma {:induction false} SettleKeepsInvariant(s: State, id: nat, ok: bool)
    requires Invariant(s)
    ensures Invariant(Step(s, Settle(id, ok)))
  {
    var t := Step(s, Settle(id, ok));
    if id < |s.controllers| && !s.controllers[id].settled {
      forall i | 0 <= i < |s.controllers|
        ensures t.controllers[i].sequence == s.controllers[i].sequence && t.controllers[i].aborted == s.controllers[i].aborted
      {
      }
    }
  }

  lemma {:induction false} BeginKeepsInvariant(s: State)
    requires Invariant(s)
    ensures Invariant(Step(s, Begin))
  {
    var s' := Step(s, Begin);
    assert forall i :: 0 <= i < |s.controllers| ==> s'.controllers[i].sequence == s.controllers[i].sequence;
  }

  lemma {:induction false} ExecKeepsInvariant(ops: seq<Operation>)
    ensures Invariant(Exec(ops))
  {
    if ops != [] {
      hide Invariant, Step;
      ExecKeepsInvariant(ops[..|ops| - 1]);
      StepKeepsInvariant(Exec(ops[..|ops| - 1]), ops[|ops| - 1]);
    }
  }

  // In every interleaving, of the runs that are still waiting exactly those other than the
  // current one have been aborted.
  lemma {:induction false} SupersededRunsAreAborted(ops: seq<Operation>)
    ensures var s := Exec(ops);
            forall i :: 0 <= i < |s.controllers| && !s.controllers[i].settled
              ==> (s.controllers[i].aborted <==> s.controller != Some(i))
  {
    hide Step;
    ExecKeepsInvariant(ops);
  }

  // Runs succeed in strictly increasing order of their sequence numbers.
  lemma {:induction false} SuccessesIncrease(ops: seq<Operation>)
    ensures Increasing(Exec(ops).successes)
  {
    hide Step;
    ExecKeepsInvariant(ops);
  }

  // From its start a run keeps its number, and the counter keeps it exactly as long
  // as nothing but settlements happens.
  lemma {:induction false} NumberSinceStart(ops: seq<Operation>, i: nat, j: nat)
    requires i < j <= |ops| && ops[i].Begin?
    ensures var id, start, now := |Exec(ops[..i]).controllers|, Exec(ops[..i]).sequence + 1, Exec(ops[..j]);
            && id < |now.controllers| && now.controllers[id].sequence == start
            && start <= now.sequence
            && (now.sequence == start <==> forall k :: i < k < j ==> ops[k].Settle?)
    decreases j
  {
    hide Exec, Step;
    ExecStep(ops, j - 1);
    if j == i + 1 {
      StepBegins(Exec(ops[..i]));
    } else {
      NumberSinceStart(ops, i, j - 1);
      StepNumbers(Exec(ops[..j - 1]), ops[j - 1], |Exec(ops[..i]).controllers|);
    }
  }

  lemma {:induction false} ExecStep(ops: seq<Operation>, k: nat)
    requires k < |ops|
    ensures Exec(ops[..k + 1]) == Step(Exec(ops[..k]), ops[k])
  {
    assert ops[..k + 1][..k] == ops[..k];
  }

  lemma {:induction false} StepBegins(s: State)
    ensures var id, now := |s.controllers|, Step(s, Begin);
            id < |now.controllers| && now.controllers[id].sequence == s.sequence + 1 == now.sequence
  {
  }

  lemma {:induction false} StepNumbers(s: State, op: Operation, id: nat)
    requires id < |s.controllers|
    ensures id < |Step(s, op).controllers| && Step(s, op).controllers[id].sequence == s.controllers[id].sequence
    ensures Step(s, op).sequence == s.sequence + if op.Settle? then 0 else 1
  {
  }

  // A run succeeds exactly when its request does and neither another run nor an
  // abort has happened since it began.
  lemma {:induction false} SucceedsIffLatest(ops: seq<Operation>, i: nat, j: nat, ok: bool)
    requires i < j <= |ops| && ops[i].Begin?
    requires var id := |Exec(ops[..i]).controllers|;
             id < |Exec(ops[..j]).controllers| && !Exec(ops[..j]).controllers[id].settled
    ensures Succeeds(Exec(ops[..j]), |Exec(ops[..i]).controllers|, ok)
            <==> ok && forall k :: i < k < j ==> ops[k].Settle?
    ensures var s, id := Exec(ops[..j]), |Exec(ops[..i]).controllers|;
            Step(s, Settle(id, ok)).successes
            == if ok && forall k :: i < k < j ==> ops[k].Settle? then s.successes + [s.controllers[id].sequence] else s.successes
  {
    NumberSinceStart(ops, i, j);
    hide Exec;
  }
}
