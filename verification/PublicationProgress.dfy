// Which targets can still be published, and which are stuck for good.
module PublicationProgress {
  import opened Publication

  // A target that is not ready can still become so if it does not exist yet, or if it has
  // the tags of this migration and, unless it is the bucket, its recovery protections: a
  // rerun sets the protections of a bucket again, but not those of a table.
  predicate CanBecomeReady(remote: Remote, p: Profile) {
    var t := remote.Of(p);
    || IsReady(remote, p)
    || !t.exists_
    || (t.tags.Some? && t.tags.value == Tags(Planned, Migrating) && (p.DatahikeS3? || Protected(remote, p)))
  }

  // ---------- Stuck targets stay stuck ----------

  // What a run can be doing at a stuck target: a migration that looks or, past its tag
  // check, keeps the tags; a publication that has not got past its checks.
  predicate StuckRun(remote: Remote, run: Run, p: Profile) {
    match run
    case Idle => true
    case Migrate(q, pc) =>
      q == p ==>
        LooksOnly(pc) || pc.Write? || (p.DatahikeS3? && (pc.BlockPublic? || pc.Encrypt? || pc.Version?))
    case Publish(q, pc) =>
      q == p ==>
        (match pc
         case Certify(_) => true
         case ReadFirstFunction => true
         case ReadSecondFunction => true
         case ReadBucketTags => p.DatahikeS3?
         case Describe => !p.DatahikeS3?
         case ReadTableTags(seen) => !p.DatahikeS3? && seen == remote.Of(p)
         case ReadBackups(seen) => !p.DatahikeS3? && seen == remote.Of(p) && Admissible(seen)
         case _ => false)
  }

  predicate Stuck(s: System, p: Profile) { !CanBecomeReady(s.remote, p) && StuckRun(s.remote, s.run, p) }

  lemma {:induction false} MigrationStaysStuck(remote: Remote, p: Profile, pc: MigratePc, a: Answer)
    requires Stuck(System(remote, Migrate(p, pc)), p)
    ensures Stuck(MigrateCall(remote, p, pc, a), p)
  {
    hide Created, Roles, Granted, Capped;
  }

  lemma {:induction false} PublicationStaysStuck(remote: Remote, p: Profile, pc: PublishPc, a: Answer)
    requires Stuck(System(remote, Publish(p, pc)), p)
    ensures Stuck(PublishCall(remote, p, pc, a), p)
  {
    hide Roles, Granted, Capped;
  }

  lemma {:induction false} OtherRunKeepsStuck(s: System, a: Answer, p: Profile)
    requires Stuck(s, p) && !s.run.Idle? && s.run.profile != p
    ensures Stuck(Step(s, Call(a)), p)
  {
    CallFrame(s, a, p);
    CallStaysOrEnds(s, a);
    hide Step, Roles, HasGrant;
  }

  lemma {:induction false} CallStaysOrEnds(s: System, a: Answer)
    requires !s.run.Idle?
    ensures Step(s, Call(a)).run.Idle? || Step(s, Call(a)).run.profile == s.run.profile
  {
    hide Created, Roles, Admissible;
  }

  lemma {:induction false} StepStaysStuck(s: System, e: Event, p: Profile)
    requires Stuck(s, p)
    ensures Stuck(Step(s, e), p)
  {
    match e
    case BeginMigrate(_) =>
      hide CanBecomeReady;
    case BeginPublish(_, _) =>
      hide CanBecomeReady;
    case Die =>
      hide CanBecomeReady;
    case Call(a) =>
      hide CanBecomeReady, StuckRun, MigrateCall, PublishCall;
      if !s.run.Idle? && s.run.profile != p {
        OtherRunKeepsStuck(s, a, p);
      } else if s.run.Migrate? {
        MigrationStaysStuck(s.remote, p, s.run.mpc, a);
      } else if s.run.Publish? {
        PublicationStaysStuck(s.remote, p, s.run.ppc, a);
      }
  }

  lemma {:induction false} ExecStaysStuck(s: System, events: seq<Event>, p: Profile)
    requires Stuck(s, p)
    ensures Stuck(Exec(s, events), p)
  {
    hide Stuck, Step;
    if events != [] {
      ExecStaysStuck(s, events[..|events| - 1], p);
      StepStaysStuck(Exec(s, events[..|events| - 1]), events[|events| - 1], p);
    }
  }

  // ---------- The others can be published ----------

  ghost predicate Reaches(s: System, u: System) { exists events :: Exec(s, events) == u }

  lemma {:induction false} ReachesStep(s: System, u: System, e: Event)
    requires Reaches(s, u)
    ensures Reaches(s, Step(u, e))
  {
    hide Step;
    var events :| Exec(s, events) == u;
    ExecSnoc(s, events, e);
  }

  lemma {:induction false} ReachesItself(s: System)
    ensures Reaches(s, s)
  {
    assert Exec(s, []) == s;
  }

  lemma {:induction false} NextCall(s: System, u: System, a: Answer) returns (next: System)
    requires Reaches(s, u)
    ensures Reaches(s, next) && next == Step(u, Call(a))
  {
    hide Step, Reaches;
    ReachesStep(s, u, Call(a));
    next := Step(u, Call(a));
  }

  predicate Tagged(t: Target) { t.exists_ && t.tags.Some? && t.tags.value == Tags(Planned, Migrating) }

  predicate Prepared(s: System, p: Profile) { s.run.Idle? && Tagged(s.remote.Of(p)) && Protected(s.remote, p) }

  // From the tag check on, a migration of the bucket sets its protections.
  lemma {:induction false} ProtectBucket(s: System, u: System, a: Answer) returns (end: System)
    requires a.last && Reaches(s, u) && u.run == Migrate(DatahikeS3, BlockPublic) && Tagged(u.remote.bucket)
    ensures Reaches(s, end) && Prepared(end, DatahikeS3)
  {
    hide Reaches, Roles, Created, PublishCall;
    end := NextCall(s, u, a);
    end := NextCall(s, end, a);
    end := NextCall(s, end, a);
    end := NextCall(s, end, a);
  }

  lemma {:induction false} PrepareBucket(s: System, a: Answer) returns (end: System)
    requires a.last && s.run.Idle? && (s.remote.bucket.exists_ ==> Tagged(s.remote.bucket))
    ensures Reaches(s, end) && Prepared(end, DatahikeS3)
  {
    hide Reaches, Roles, PublishCall;
    ReachesItself(s);
    ReachesStep(s, s, BeginMigrate(DatahikeS3));
    var u := NextCall(s, Step(s, BeginMigrate(DatahikeS3)), a);
    u := NextCall(s, u, a);
    if !s.remote.bucket.exists_ {
      u := NextCall(s, u, a);
    }
    end := ProtectBucket(s, u, a);
  }

  lemma {:induction false} PrepareDatahikeTable(s: System, a: Answer) returns (end: System)
    requires a.last && s.run.Idle? && !s.remote.datahike.exists_
    ensures Reaches(s, end) && Prepared(end, DatahikeDynamoDb)
  {
    hide Reaches, Roles, PublishCall;
    ReachesItself(s);
    ReachesStep(s, s, BeginMigrate(DatahikeDynamoDb));
    end := NextCall(s, Step(s, BeginMigrate(DatahikeDynamoDb)), a);
    end := NextCall(s, end, a);
    end := NextCall(s, end, a);
    end := NextCall(s, end, a);
  }

  lemma {:induction false} PrepareDatomicTable(s: System, a: Answer) returns (end: System)
    requires a.last && s.run.Idle? && !s.remote.datomic.exists_
    ensures Reaches(s, end) && Prepared(end, DatomicDynamoDb)
  {
    hide Reaches, Roles, PublishCall;
    ReachesItself(s);
    ReachesStep(s, s, BeginMigrate(DatomicDynamoDb));
    end := NextCall(s, Step(s, BeginMigrate(DatomicDynamoDb)), a);
    end := NextCall(s, end, a);
    end := NextCall(s, end, a);
    end := NextCall(s, end, a);
    end := NextCall(s, end, a);
    end := NextCall(s, end, a);
  }

  lemma {:induction false} Prepare(s: System, p: Profile, a: Answer) returns (end: System)
    requires s.run.Idle? && a.last && CanBecomeReady(s.remote, p) && !IsReady(s.remote, p)
    ensures Reaches(s, end) && Prepared(end, p)
  {
    hide Reaches, Roles, Step;
    if s.remote.Of(p).exists_ && !p.DatahikeS3? {
      ReachesItself(s);
      end := s;
    } else {
      match p
      case DatahikeS3 => end := PrepareBucket(s, a);
      case DatahikeDynamoDb => end := PrepareDatahikeTable(s, a);
      case DatomicDynamoDb => end := PrepareDatomicTable(s, a);
    }
  }

  lemma {:induction false} PublishPrepared(s: System, u: System, p: Profile, a: Answer)
    requires Invariant(s) && Reaches(s, u) && Prepared(u, p) && a.role in Roles(p)
    ensures exists events :: IsReady(Exec(s, events).remote, p)
  {
    hide Step, Invariant, Roles, Protected;
    var before :| Exec(s, before) == u;
    ExecKeepsInvariant(s, before);
    PublicationCompletes(u, p, a);
    var after := [BeginPublish(p, true)] + Calls(CallsBeforeTag(u.remote, p) + 1, a);
    CompletedState(u, after, p);
    PublishedIsReady(u.remote, p);
    ExecConcat(s, before, after);
    assert IsReady(Exec(s, before + after).remote, p);
  }

  lemma {:induction false} PublishedIsReady(remote: Remote, p: Profile)
    requires remote.Of(p).exists_
    ensures IsReady(Published(remote, p), p)
  {
  }

  // From any reachable state between runs, some sequence of runs makes the target ready
  // exactly when it does not exist yet or has the tags of this migration and, if it is a
  // table, its recovery protections.
  lemma {:induction false} ReadyIsReachable(s: System, p: Profile)
    requires Invariant(s) && s.run.Idle?
    ensures (exists events :: IsReady(Exec(s, events).remote, p)) <==> CanBecomeReady(s.remote, p)
  {
    hide Invariant, Step, Exec, Reaches;
    if CanBecomeReady(s.remote, p) {
      if IsReady(s.remote, p) {
        NothingYet(s, p);
      } else {
        var a := Answer(Roles(p)[0], "", "", true, map[]);
        var u := Prepare(s, p, a);
        PublishPrepared(s, u, p, a);
      }
    } else {
      forall events ensures !IsReady(Exec(s, events).remote, p) {
        ExecStaysStuck(s, events, p);
        StuckIsNotReady(Exec(s, events), p);
      }
    }
  }

  lemma {:induction false} NothingYet(s: System, p: Profile)
    requires IsReady(s.remote, p)
    ensures exists events :: IsReady(Exec(s, events).remote, p)
  {
    assert Exec(s, []) == s;
  }

  lemma {:induction false} StuckIsNotReady(s: System, p: Profile)
    requires Stuck(s, p)
    ensures !IsReady(s.remote, p)
  {
  }

  // A migration that dies between the creation of the table and the call that turns its
  // recovery on leaves the table stuck, although every call has succeeded.
  lemma {:induction false} InterruptedCreationIsStuck(remote: Remote, a: Answer)
    requires !remote.datahike.exists_ && !remote.datahike.recovery
    ensures var end := Exec(System(remote, Idle), [BeginMigrate(DatahikeDynamoDb), Call(a), Call(a), Die]);
            end.run.Idle? && !CanBecomeReady(end.remote, DatahikeDynamoDb)
  {
    hide PublishCall, Roles;
    var s := System(remote, Idle);
    var begin := BeginMigrate(DatahikeDynamoDb);
    ExecSnoc(s, [], begin);
    ExecSnoc(s, [begin], Call(a));
    ExecSnoc(s, [begin, Call(a)], Call(a));
    ExecSnoc(s, [begin, Call(a), Call(a)], Die);
    assert [] + [begin] == [begin] && [begin] + [Call(a)] == [begin, Call(a)];
    assert [begin, Call(a)] + [Call(a)] == [begin, Call(a), Call(a)];
    assert [begin, Call(a), Call(a)] + [Die] == [begin, Call(a), Call(a), Die];
  }
}
