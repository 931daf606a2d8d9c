// Migration and publication of the storage generations, one remote call a step.
//
// Runs are sequential and each may stop after any remote call. What a run has
// observed is kept in its program counter; everything else is remote state.
module Publication {
  import opened Wrappers

  datatype Profile = DatahikeS3 | DatahikeDynamoDb | DatomicDynamoDb

  // The reader roles of the reviewed plan, and any other role a function may have.
  datatype Role = S3Large | S3Live | DatahikeLarge | DatahikeLive | DatomicEc2 | DatomicServing | Unplanned

  datatype Phase = Migrating | Ready | OtherPhase
  datatype Generation = Planned | OtherGeneration
  datatype Tags = Tags(generation: Generation, phase: Phase)
  datatype Throughput = Throughput(read: nat, write: nat)

  const MIGRATION_THROUGHPUT := Throughput(250, 1000)
  const SERVING_THROUGHPUT := Throughput(250, 1)

  // One target bucket or table. The bucket uses publicBlocked, encrypted and
  // versioned; a table uses deletionProtected, recovery and throughput.
  datatype Target = Target(
    exists_: bool,
    tags: Option<Tags>,
    publicBlocked: bool,
    encrypted: bool,
    versioned: bool,
    deletionProtected: bool,
    recovery: bool,
    throughput: Option<Throughput>,
    data: map<string, string>)

  // Three targets, and for each role the profile its generation read policy names.
  datatype Remote = Remote(
    bucket: Target,
    datahike: Target,
    datomic: Target,
    policies: map<Role, Profile>)
  {
    function Of(p: Profile): Target {
      match p
      case DatahikeS3 => bucket
      case DatahikeDynamoDb => datahike
      case DatomicDynamoDb => datomic
    }

    function With(p: Profile, t: Target): (r: Remote)
      ensures r.Of(p) == t && r.policies == policies
      ensures forall q :: q != p ==> r.Of(q) == Of(q)
    {
      match p
      case DatahikeS3 => this.(bucket := t)
      case DatahikeDynamoDb => this.(datahike := t)
      case DatomicDynamoDb => this.(datomic := t)
    }
  }

  // The sorted reader roles of a profile.
  function Roles(p: Profile): (roles: seq<Role>)
    ensures |roles| == 2
  {
    match p
    case DatahikeS3 => [S3Large, S3Live]
    case DatahikeDynamoDb => [DatahikeLarge, DatahikeLive]
    case DatomicDynamoDb => [DatomicEc2, DatomicServing]
  }

  // ---------- Runs ----------

  datatype MigratePc =
    | Look | ReadTags | Create | Tag
    | BlockPublic | Encrypt | Version
    | DeletionProtect | Recover
    | Write

  datatype PublishPc =
    | Certify(certified: bool) | ReadFirstFunction | ReadSecondFunction
    | ReadBucketTags | ReadAccessBlock | ReadVersioning
    | Describe | ReadTableTags(seen: Target) | ReadBackups(seen: Target) | SetThroughput
    | Grant(next: nat) | TagReady

  datatype Run =
    | Idle
    | Migrate(profile: Profile, mpc: MigratePc)
    | Publish(profile: Profile, ppc: PublishPc)

  datatype System = System(remote: Remote, run: Run)

  // What a remote call may answer: the role of a function, the object or item
  // written, whether it was the last one, and what a restored table holds.
  datatype Answer = Answer(role: Role, key: string, value: string, last: bool, restored: map<string, string>)

  datatype Event = BeginMigrate(profile: Profile) | BeginPublish(profile: Profile, certified: bool) | Call(answer: Answer) | Die

  function Step(s: System, e: Event): System {
    match e
    case BeginMigrate(p) => if s.run.Idle? then s.(run := Migrate(p, Look)) else s
    case BeginPublish(p, c) => if s.run.Idle? then s.(run := Publish(p, Certify(c))) else s
    case Die => s.(run := Idle)
    case Call(a) =>
      match s.run
      case Idle => s
      case Migrate(p, pc) => MigrateCall(s.remote, p, pc, a)
      case Publish(p, pc) => PublishCall(s.remote, p, pc, a)
  }

  function Exec(s: System, events: seq<Event>): System
  {
    if events == [] then s else Step(Exec(s, events[..|events| - 1]), events[|events| - 1])
  }

  lemma {:induction false} ExecSnoc(s: System, events: seq<Event>, e: Event)
    ensures Exec(s, events + [e]) == Step(Exec(s, events), e)
  {
    hide Step;
    assert (events + [e])[..|events|] == events;
  }

  lemma {:induction false} ExecConcat(s: System, first: seq<Event>, second: seq<Event>)
    ensures Exec(s, first + second) == Exec(Exec(s, first), second)
    decreases |second|
  {
    hide Step;
    if second == [] {
      assert first + second == first;
    } else {
      ExecConcat(s, first, second[..|second| - 1]);
      assert (first + second)[..|first + second| - 1] == first + second[..|second| - 1];
    }
  }

  function CallsOf(answers: seq<Answer>): seq<Event> { seq(|answers|, i requires 0 <= i < |answers| => Call(answers[i])) }

  function MigrateCall(remote: Remote, p: Profile, pc: MigratePc, a: Answer): System {
    var t := remote.Of(p);
    match pc
    case Look => System(remote, Migrate(p, if t.exists_ then ReadTags else Create))
    case ReadTags =>
      // The bucket check looks at the phase only; the table check also at the generation.
      if p.DatahikeS3? then
        if t.tags.Some? && t.tags.value.phase == Migrating
        then System(remote, Migrate(p, BlockPublic)) else System(remote, Idle)
      else
        if t.tags == Some(Tags(Planned, Migrating))
        then System(remote, Migrate(p, Write)) else System(remote, Idle)
    case Create => System(remote.With(p, Created(p, t, a)), Migrate(p, if p.DatahikeDynamoDb? then Recover else Tag))
    case Tag =>
      System(remote.With(p, t.(tags := Some(Tags(Planned, Migrating)))),
             Migrate(p, if p.DatahikeS3? then BlockPublic else DeletionProtect))
    case BlockPublic => System(remote.With(p, t.(publicBlocked := true)), Migrate(p, Encrypt))
    case Encrypt => System(remote.With(p, t.(encrypted := true)), Migrate(p, Version))
    case Version => System(remote.With(p, t.(versioned := true)), Migrate(p, Write))
    case DeletionProtect => System(remote.With(p, t.(deletionProtected := true)), Migrate(p, Recover))
    case Recover => System(remote.With(p, t.(recovery := true)), Migrate(p, Write))
    case Write =>
      System(remote.With(p, t.(data := t.data[a.key := a.value])), if a.last then Idle else Migrate(p, Write))
  }

  // A new bucket has no tags yet, a new table is created with its tags, and a
  // restored table has the data of its source but not its tags.
  function Created(p: Profile, t: Target, a: Answer): Target {
    match p
    case DatahikeS3 => t.(exists_ := true, tags := None)
    case DatahikeDynamoDb =>
      t.(exists_ := true, tags := Some(Tags(Planned, Migrating)), deletionProtected := true,
         throughput := Some(MIGRATION_THROUGHPUT))
    case DatomicDynamoDb =>
      t.(exists_ := true, tags := None, data := a.restored, throughput := Some(MIGRATION_THROUGHPUT))
  }

  function Continue(remote: Remote, p: Profile, condition: bool, pc: PublishPc): System {
    System(remote, if condition then Publish(p, pc) else Idle)
  }

  function PublishCall(remote: Remote, p: Profile, pc: PublishPc, a: Answer): System {
    var t := remote.Of(p);
    match pc
    case Certify(certified) => Continue(remote, p, certified, ReadFirstFunction)
    case ReadFirstFunction => Continue(remote, p, a.role in Roles(p), ReadSecondFunction)
    case ReadSecondFunction =>
      Continue(remote, p, a.role in Roles(p), if p.DatahikeS3? then ReadBucketTags else Describe)
    case ReadBucketTags => Continue(remote, p, Admissible(t), ReadAccessBlock)
    case ReadAccessBlock => Continue(remote, p, t.publicBlocked, ReadVersioning)
    case ReadVersioning => Continue(remote, p, t.versioned, Grant(0))
    case Describe => Continue(remote, p, t.exists_, ReadTableTags(t))
    case ReadTableTags(seen) => Continue(remote, p, Admissible(t), ReadBackups(seen))
    case ReadBackups(seen) =>
      Continue(remote, p, seen.deletionProtected && t.recovery,
               if seen.throughput != Some(SERVING_THROUGHPUT) then SetThroughput else Grant(0))
    case SetThroughput =>
      System(remote.With(p, t.(throughput := Some(SERVING_THROUGHPUT))), Publish(p, Grant(0)))
    case Grant(next) =>
      if next >= |Roles(p)| then System(remote, Publish(p, TagReady))
      else
        System(remote.(policies := remote.policies[Roles(p)[next] := p]),
               Publish(p, if next + 1 < |Roles(p)| then Grant(next + 1) else TagReady))
    case TagReady => System(remote.With(p, t.(tags := Some(Tags(Planned, Ready)))), Idle)
  }

  predicate Admissible(t: Target) {
    && t.exists_
    && t.tags.Some?
    && t.tags.value.generation == Planned
    && (t.tags.value.phase == Migrating || t.tags.value.phase == Ready)
  }

  // ---------- Safety ----------

  predicate IsReady(remote: Remote, p: Profile) {
    remote.Of(p).exists_ && remote.Of(p).tags.Some? && remote.Of(p).tags.value.phase == Ready
  }

  predicate Protected(remote: Remote, p: Profile) {
    var t := remote.Of(p);
    if p.DatahikeS3? then t.publicBlocked && t.versioned else t.deletionProtected && t.recovery
  }

  predicate Capped(remote: Remote, p: Profile) {
    !p.DatahikeS3? ==> remote.Of(p).throughput == Some(SERVING_THROUGHPUT)
  }

  predicate HasGrant(policies: map<Role, Profile>, role: Role, p: Profile) {
    role in policies && policies[role] == p
  }

  // The first `count` reader roles may read the target.
  predicate Granted(policies: map<Role, Profile>, p: Profile, count: nat) {
    forall i :: 0 <= i < count && i < |Roles(p)| ==> HasGrant(policies, Roles(p)[i], p)
  }

  // What a published target must have.
  predicate Complete(remote: Remote, p: Profile) {
    && remote.Of(p).tags == Some(Tags(Planned, Ready))
    && Protected(remote, p)
    && Capped(remote, p)
    && Granted(remote.policies, p, |Roles(p)|)
  }

  predicate Safe(remote: Remote) {
    forall p :: IsReady(remote, p) ==> Complete(remote, p)
  }

  // What the current run knows. A migration past its tag check works on a target
  // that is not ready; a publication has seen everything it relies on.
  predicate RunInvariant(remote: Remote, run: Run) {
    match run
    case Idle => true
    case Migrate(p, pc) =>
      (match pc
       case Look => true
       case ReadTags => true
       case Create => !remote.Of(p).exists_
       case _ => !IsReady(remote, p))
    case Publish(p, pc) =>
      var t := remote.Of(p);
      (match pc
       case Certify(_) => true
       case ReadFirstFunction => true
       case ReadSecondFunction => true
       case ReadBucketTags => p.DatahikeS3?
       case ReadAccessBlock => p.DatahikeS3? && Admissible(t)
       case ReadVersioning => p.DatahikeS3? && Admissible(t) && t.publicBlocked
       case Describe => !p.DatahikeS3?
       case ReadTableTags(seen) => !p.DatahikeS3? && seen == t
       case ReadBackups(seen) => !p.DatahikeS3? && seen == t && Admissible(t)
       case SetThroughput => !p.DatahikeS3? && Admissible(t) && Protected(remote, p)
       case Grant(next) =>
         next < |Roles(p)| && Admissible(t) && Protected(remote, p) && Capped(remote, p) && Granted(remote.policies, p, next)
       case TagReady =>
         Admissible(t) && Protected(remote, p) && Capped(remote, p) && Granted(remote.policies, p, |Roles(p)|))
  }

  predicate Invariant(s: System) {
    Safe(s.remote) && RunInvariant(s.remote, s.run)
  }

  function ProfileOf(run: Run): Option<Profile> {
    if run.Idle? then None else Some(run.profile)
  }

  // A call touches the target of its own profile only, and grants only its own roles.
  lemma {:induction false} CallFrame(s: System, a: Answer, q: Profile)
    requires ProfileOf(s.run) != Some(q)
    ensures Step(s, Call(a)).remote.Of(q) == s.remote.Of(q)
    ensures forall i :: 0 <= i < |Roles(q)| && HasGrant(s.remote.policies, Roles(q)[i], q)
              ==> HasGrant(Step(s, Call(a)).remote.policies, Roles(q)[i], q)
  {
    match s.run
    case Idle =>
    case Migrate(p, pc) => MigrateFrame(s.remote, p, pc, a, q);
    case Publish(p, pc) =>
      hide PublishCall, MigrateCall, HasGrant, Roles;
      PublishFrame(s.remote, p, pc, a, q);
  }

  lemma {:induction false} MigrateFrame(remote: Remote, p: Profile, pc: MigratePc, a: Answer, q: Profile)
    requires p != q
    ensures MigrateCall(remote, p, pc, a).remote.Of(q) == remote.Of(q)
    ensures MigrateCall(remote, p, pc, a).remote.policies == remote.policies
  {
    hide Created;
  }

  lemma {:induction false} PublishFrame(remote: Remote, p: Profile, pc: PublishPc, a: Answer, q: Profile)
    requires p != q
    ensures PublishCall(remote, p, pc, a).remote.Of(q) == remote.Of(q)
    ensures forall i :: 0 <= i < |Roles(q)| && HasGrant(remote.policies, Roles(q)[i], q)
              ==> HasGrant(PublishCall(remote, p, pc, a).remote.policies, Roles(q)[i], q)
  {
    hide Admissible;
  }

  lemma {:induction false} OthersStayComplete(s: System, a: Answer, q: Profile)
    requires ProfileOf(s.run) != Some(q)
    requires IsReady(s.remote, q) ==> Complete(s.remote, q)
    ensures IsReady(Step(s, Call(a)).remote, q) ==> Complete(Step(s, Call(a)).remote, q)
  {
    hide Step, Roles, HasGrant;
    CallFrame(s, a, q);
  }

  predicate LooksOnly(pc: MigratePc) { pc.Look? || pc.ReadTags? }

  // Past its tag check a migration works on a target that is not ready and leaves it so.
  lemma {:induction false} WorkKeepsUnready(remote: Remote, p: Profile, pc: MigratePc, a: Answer)
    requires !LooksOnly(pc) && (if pc.Create? then !remote.Of(p).exists_ else !IsReady(remote, p))
    ensures !IsReady(MigrateCall(remote, p, pc, a).remote, p)
  {
  }

  lemma {:induction false} WorkGoesOn(remote: Remote, p: Profile, pc: MigratePc, a: Answer)
    requires !LooksOnly(pc)
    ensures var run := MigrateCall(remote, p, pc, a).run;
            run.Idle? || (run.Migrate? && run.profile == p && !LooksOnly(run.mpc) && !run.mpc.Create?)
  {
    hide Created;
  }

  lemma {:induction false} LookingKeepsOwn(remote: Remote, p: Profile, pc: MigratePc, a: Answer)
    requires LooksOnly(pc)
    ensures MigrateCall(remote, p, pc, a).remote == remote
    ensures RunInvariant(remote, MigrateCall(remote, p, pc, a).run)
  {
    hide Created, Protected, Capped, Granted, Roles;
  }

  lemma {:induction false} MigrateKeepsOwn(s: System, a: Answer)
    requires RunInvariant(s.remote, s.run) && s.run.Migrate?
    ensures RunInvariant(Step(s, Call(a)).remote, Step(s, Call(a)).run)
    ensures var p, remote := s.run.profile, Step(s, Call(a)).remote;
            IsReady(remote, p) ==> remote == s.remote
  {
    hide PublishCall, MigrateCall, Roles, Protected, Capped, Granted, IsReady;
    var p, pc := s.run.profile, s.run.mpc;
    if LooksOnly(pc) {
      LookingKeepsOwn(s.remote, p, pc, a);
    } else {
      WorkKeepsUnready(s.remote, p, pc, a);
      WorkGoesOn(s.remote, p, pc, a);
    }
  }

  lemma {:induction false} GrantExtends(remote: Remote, p: Profile, next: nat)
    requires next < |Roles(p)|
    ensures var remote' := remote.(policies := remote.policies[Roles(p)[next] := p]);
            && (Granted(remote.policies, p, next) ==> Granted(remote'.policies, p, next + 1))
            && (Granted(remote.policies, p, |Roles(p)|) ==> Granted(remote'.policies, p, |Roles(p)|))
  {
  }

  lemma {:induction false} GrantKeepsOwn(s: System, a: Answer)
    requires Invariant(s) && s.run.Publish? && s.run.ppc.Grant?
    ensures RunInvariant(Step(s, Call(a)).remote, Step(s, Call(a)).run)
    ensures var p, remote := s.run.profile, Step(s, Call(a)).remote;
            IsReady(remote, p) ==> Complete(remote, p)
  {
    hide Granted;
    GrantExtends(s.remote, s.run.profile, s.run.ppc.next);
    assert IsReady(s.remote, s.run.profile) ==> Complete(s.remote, s.run.profile);
  }

  lemma {:induction false} PublishKeepsOwn(s: System, a: Answer)
    requires Invariant(s) && s.run.Publish?
    ensures RunInvariant(Step(s, Call(a)).remote, Step(s, Call(a)).run)
    ensures var p, remote := s.run.profile, Step(s, Call(a)).remote;
            IsReady(remote, p) ==> Complete(remote, p)
  {
    hide HasGrant;
    if s.run.ppc.Grant? {
      GrantKeepsOwn(s, a);
    } else {
      assert IsReady(s.remote, s.run.profile) ==> Complete(s.remote, s.run.profile);
    }
  }

  lemma {:induction false} StepKeepsInvariant(s: System, e: Event)
    requires Invariant(s)
    ensures Invariant(Step(s, e))
  {
    hide Complete, IsReady, MigrateCall, PublishCall;
    if e.Call? && !s.run.Idle? {
      var p := s.run.profile;
      if s.run.Migrate? {
        MigrateKeepsOwn(s, e.answer);
      } else {
        PublishKeepsOwn(s, e.answer);
      }
      forall q | IsReady(Step(s, e).remote, q) ensures Complete(Step(s, e).remote, q) {
        if q != p {
          OthersStayComplete(s, e.answer, q);
        }
      }
    }
  }

  lemma {:induction false} ExecKeepsInvariant(s: System, events: seq<Event>)
    requires Invariant(s)
    ensures Invariant(Exec(s, events))
  {
    hide Invariant, Step;
    if events != [] {
      ExecKeepsInvariant(s, events[..|events| - 1]);
      StepKeepsInvariant(Exec(s, events[..|events| - 1]), events[|events| - 1]);
    }
  }

  // From any remote state in which no target is ready, whatever migrations and
  // publications are started and wherever each of them stops, a target that is
  // tagged ready has every planned reader policy, its recovery protections and,
  // for a table, the serving write cap.
  lemma {:induction false} ReadyTargetsAreComplete(remote: Remote, events: seq<Event>, p: Profile)
    requires forall q :: !IsReady(remote, q)
    ensures var end := Exec(System(remote, Idle), events).remote;
            IsReady(end, p) ==> Complete(end, p)
  {
    hide Complete, IsReady;
    ExecKeepsInvariant(System(remote, Idle), events);
  }

  // ---------- A ready target is never written again ----------

  lemma {:induction false} ReadyStays(s: System, e: Event, p: Profile)
    requires Invariant(s) && IsReady(s.remote, p)
    ensures Step(s, e).remote.Of(p) == s.remote.Of(p)
  {
    assert Complete(s.remote, p);
    hide Granted;
    if e.Call? && ProfileOf(s.run) != Some(p) {
      CallFrame(s, e.answer, p);
    }
  }

  // Once a target is ready no later run changes anything about it, its data least of all.
  lemma {:induction false} ReadyTargetIsFrozen(s: System, events: seq<Event>, p: Profile)
    requires Invariant(s) && IsReady(s.remote, p)
    ensures Exec(s, events).remote.Of(p) == s.remote.Of(p)
  {
    hide Invariant, Step;
    if events != [] {
      var front := events[..|events| - 1];
      ReadyTargetIsFrozen(s, front, p);
      ExecKeepsInvariant(s, front);
      ReadyStays(Exec(s, front), events[|events| - 1], p);
    }
  }

  // ---------- Rerunning an interrupted publication ----------

  // What a complete publication makes of the remote state.
  function Published(remote: Remote, p: Profile): Remote {
    var t := remote.Of(p);
    var capped := if p.DatahikeS3? then t else t.(throughput := Some(SERVING_THROUGHPUT));
    remote.With(p, capped.(tags := Some(Tags(Planned, Ready))))
          .(policies := remote.policies[Roles(p)[0] := p][Roles(p)[1] := p])
  }

  predicate PublishesOnly(events: seq<Event>, p: Profile) {
    forall i :: 0 <= i < |events| ==> !events[i].BeginMigrate? && (events[i].BeginPublish? ==> events[i].profile == p)
  }

  // Every step of a publication moves towards the same final state, and its last
  // step reaches it.
  lemma {:induction false} PublishStepKeepsGoal(s: System, a: Answer)
    requires Invariant(s) && s.run.Publish?
    ensures var p := s.run.profile;
            && Published(Step(s, Call(a)).remote, p) == Published(s.remote, p)
            && (s.run.ppc.TagReady? ==> Step(s, Call(a)).remote == Published(s.remote, p))
  {
    var p := s.run.profile;
    if s.run.ppc.Grant? {
      GrantKeepsGoal(s.remote, p, s.run.ppc.next);
    } else if s.run.ppc.TagReady? {
      assert HasGrant(s.remote.policies, Roles(p)[0], p) && HasGrant(s.remote.policies, Roles(p)[1], p);
    }
  }

  lemma {:induction false} GrantKeepsGoal(remote: Remote, p: Profile, i: nat)
    requires i < |Roles(p)|
    ensures Published(remote.(policies := remote.policies[Roles(p)[i] := p]), p) == Published(remote, p)
  {
    assert i == 0 || i == 1;
  }

  lemma {:induction false} GoalIsKept(s: System, events: seq<Event>, p: Profile)
    requires Invariant(s) && s.run.Idle? && PublishesOnly(events, p)
    ensures var end := Exec(s, events);
            && Invariant(end)
            && !end.run.Migrate? && ProfileOf(end.run) in {None, Some(p)}
            && Published(end.remote, p) == Published(s.remote, p)
  {
    hide Invariant, Published, PublishCall, MigrateCall;
    if events != [] {
      var front, e := events[..|events| - 1], events[|events| - 1];
      GoalIsKept(s, front, p);
      var before := Exec(s, front);
      StepKeepsInvariant(before, e);
      if e.Call? && before.run.Publish? {
        PublishStepKeepsGoal(before, e.answer);
        CallStaysWithProfile(before, e.answer);
      }
    }
  }

  lemma {:induction false} CallStaysWithProfile(s: System, a: Answer)
    requires s.run.Publish?
    ensures Step(s, Call(a)).run.Idle? || (Step(s, Call(a)).run.Publish? && Step(s, Call(a)).run.profile == s.run.profile)
  {
  }

  // The publication of p completes with the last of these events.
  predicate Completes(s: System, events: seq<Event>, p: Profile) {
    && events != []
    && events[|events| - 1].Call?
    && Exec(s, events[..|events| - 1]).run == Publish(p, TagReady)
  }

  // However often a publication is interrupted and rerun, the run that completes
  // leaves the very state that one uninterrupted run leaves.
  lemma {:induction false} RerunReachesSameState(s: System, events: seq<Event>, events': seq<Event>, p: Profile)
    requires Invariant(s) && s.run.Idle?
    requires PublishesOnly(events, p) && Completes(s, events, p)
    requires PublishesOnly(events', p) && Completes(s, events', p)
    ensures Exec(s, events).remote == Exec(s, events').remote == Published(s.remote, p)
  {
    hide Invariant, Published, Step;
    CompletedState(s, events, p);
    CompletedState(s, events', p);
  }

  lemma {:induction false} CompletedState(s: System, events: seq<Event>, p: Profile)
    requires Invariant(s) && s.run.Idle?
    requires PublishesOnly(events, p) && Completes(s, events, p)
    ensures Exec(s, events).remote == Published(s.remote, p)
  {
    hide Invariant, Published, Step;
    var front := events[..|events| - 1];
    GoalIsKept(s, front, p);
    PublishStepKeepsGoal(Exec(s, front), events[|events| - 1].answer);
  }

  // ---------- A publication that can complete ----------

  function Calls(count: nat, a: Answer): seq<Event> {
    seq(count, _ => Call(a))
  }

  function Advance(s: System, a: Answer, count: nat): System {
    if count == 0 then s else Step(Advance(s, a, count - 1), Call(a))
  }

  lemma {:induction false} ExecCalls(s: System, e: Event, a: Answer, count: nat)
    ensures Exec(s, [e] + Calls(count, a)) == Advance(Step(s, e), a, count)
  {
    hide Step;
    var events := [e] + Calls(count, a);
    if count == 0 {
      assert events == [e] && events[..0] == [];
      assert Exec(s, []) == s;
    } else {
      ExecCalls(s, e, a, count - 1);
      assert events[..count] == [e] + Calls(count - 1, a);
      assert events[count] == Call(a);
    }
  }

  // The calls of a publication before the one that sets the tag.
  function CallsBeforeTag(remote: Remote, p: Profile): nat {
    if p.DatahikeS3? || remote.Of(p).throughput == Some(SERVING_THROUGHPUT) then 8 else 9
  }

  // From an admissible and protected target, an interrupted publication or none
  // behind it, one certified run whose functions have planned roles completes.
  lemma {:induction false} PublicationCompletes(s: System, p: Profile, a: Answer)
    requires s.run.Idle? && a.role in Roles(p)
    requires Admissible(s.remote.Of(p)) && Protected(s.remote, p)
    ensures var events := [BeginPublish(p, true)] + Calls(CallsBeforeTag(s.remote, p) + 1, a);
            PublishesOnly(events, p) && Completes(s, events, p)
  {
    hide Roles;
    var n := CallsBeforeTag(s.remote, p);
    var events := [BeginPublish(p, true)] + Calls(n + 1, a);
    assert events[..|events| - 1] == [BeginPublish(p, true)] + Calls(n, a);
    ExecCalls(s, BeginPublish(p, true), a, n);
    ReachesTag(s, p, a);
  }

  lemma {:induction false} ReachesTag(s: System, p: Profile, a: Answer)
    requires s.run.Idle? && a.role in Roles(p)
    requires Admissible(s.remote.Of(p)) && Protected(s.remote, p)
    ensures Advance(Step(s, BeginPublish(p, true)), a, CallsBeforeTag(s.remote, p)).run == Publish(p, TagReady)
  {
    var begun := Step(s, BeginPublish(p, true));
    assert Advance(begun, a, 1) == System(s.remote, Publish(p, ReadFirstFunction));
    assert Advance(begun, a, 2) == System(s.remote, Publish(p, ReadSecondFunction));
    var t := s.remote.Of(p);
    if p.DatahikeS3? {
      assert Advance(begun, a, 3) == System(s.remote, Publish(p, ReadBucketTags));
      assert Advance(begun, a, 4) == System(s.remote, Publish(p, ReadAccessBlock));
      assert Advance(begun, a, 5) == System(s.remote, Publish(p, ReadVersioning));
      assert Advance(begun, a, 6) == System(s.remote, Publish(p, Grant(0)));
      assert Advance(begun, a, 7).run == Publish(p, Grant(1));
    } else {
      assert Advance(begun, a, 3) == System(s.remote, Publish(p, Describe));
      assert Advance(begun, a, 4) == System(s.remote, Publish(p, ReadTableTags(t)));
      assert Advance(begun, a, 5) == System(s.remote, Publish(p, ReadBackups(t)));
      if t.throughput == Some(SERVING_THROUGHPUT) {
        assert Advance(begun, a, 6).run == Publish(p, Grant(0));
        assert Advance(begun, a, 7).run == Publish(p, Grant(1));
      } else {
        assert Advance(begun, a, 6).run == Publish(p, SetThroughput);
        assert Advance(begun, a, 7).run == Publish(p, Grant(0));
        assert Advance(begun, a, 8).run == Publish(p, Grant(1));
      }
    }
  }
}
