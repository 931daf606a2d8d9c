// What a whole migration makes of its target.
module Migration {
  import opened Wrappers
  import opened Publication

  lemma {:induction false} ExecCons(s: System, e: Event, rest: seq<Event>)
    ensures Exec(s, [e] + rest) == Exec(Step(s, e), rest)
  {
    hide Step;
    ExecConcat(s, [e], rest);
    ExecSnoc(s, [], e);
    assert [] + [e] == [e] && Exec(s, []) == s;
  }

  // ---------- Writing ----------

  function Written(data: map<string, string>, writes: seq<Answer>): map<string, string>
    decreases |writes|
  {
    if writes == [] then data else Written(data[writes[0].key := writes[0].value], writes[1..])
  }

  // Writes end with the last object.
  predicate AllWrites(writes: seq<Answer>) {
    writes != [] && forall i :: 0 <= i < |writes| ==> (writes[i].last <==> i == |writes| - 1)
  }

  lemma {:induction false} WritesAll(remote: Remote, p: Profile, writes: seq<Answer>)
    requires AllWrites(writes)
    ensures var t := remote.Of(p);
            Exec(System(remote, Migrate(p, Write)), CallsOf(writes))
            == System(remote.With(p, t.(data := Written(t.data, writes))), Idle)
    decreases |writes|
  {
    var s, a, rest := System(remote, Migrate(p, Write)), writes[0], writes[1..];
    var t := remote.Of(p);
    var next := remote.With(p, t.(data := t.data[a.key := a.value]));
    assert CallsOf(writes) == [Call(a)] + CallsOf(rest);
    ExecCons(s, Call(a), CallsOf(rest));
    hide Exec, PublishCall;
    if rest == [] {
      assert CallsOf(rest) == [];
      ExecNothing(System(next, Idle));
      assert Written(t.data, writes) == t.data[a.key := a.value];
    } else {
      WritesAll(next, p, rest);
      WithTwice(remote, p, t.(data := t.data[a.key := a.value]), t.(data := Written(t.data, writes)));
    }
  }

  lemma {:induction false} ExecNothing(s: System)
    ensures Exec(s, []) == s
  {
  }

  lemma {:induction false} WithTwice(remote: Remote, p: Profile, t: Target, t': Target)
    ensures remote.With(p, t).With(p, t') == remote.With(p, t')
  {
  }

  // Each object is written with the last value it was given, and nothing else changes.
  lemma {:induction false} WrittenIs(data: map<string, string>, writes: seq<Answer>, key: string)
    ensures key in Written(data, writes) <==> key in data || exists i :: 0 <= i < |writes| && writes[i].key == key
    ensures (forall i :: 0 <= i < |writes| ==> writes[i].key != key) && key in data ==> Written(data, writes)[key] == data[key]
    ensures forall i :: 0 <= i < |writes| && writes[i].key == key && (forall j :: i < j < |writes| ==> writes[j].key != key)
              ==> key in Written(data, writes) && Written(data, writes)[key] == writes[i].value
    decreases |writes|
  {
    if writes != [] {
      var rest := writes[1..];
      assert forall i :: 0 < i < |writes| ==> writes[i] == rest[i - 1];
      WrittenIs(data[writes[0].key := writes[0].value], rest, key);
    }
  }

  // ---------- Preparing ----------

  // The state after some calls.
  function After(s: System, answers: seq<Answer>): System
    decreases |answers|
  {
    if answers == [] then s else After(Step(s, Call(answers[0])), answers[1..])
  }

  lemma {:induction false} ExecAfter(s: System, answers: seq<Answer>)
    ensures Exec(s, CallsOf(answers)) == After(s, answers)
    decreases |answers|
  {
    if answers == [] {
      assert CallsOf(answers) == [];
    } else {
      hide Exec, Step;
      assert CallsOf(answers) == [Call(answers[0])] + CallsOf(answers[1..]);
      ExecCons(s, Call(answers[0]), CallsOf(answers[1..]));
      ExecAfter(Step(s, Call(answers[0])), answers[1..]);
    }
  }

  lemma {:induction false} AfterStep(s: System, answers: seq<Answer>)
    requires answers != []
    ensures After(s, answers) == After(Step(s, Call(answers[0])), answers[1..])
  {
  }

  // The calls of a migration before it writes.
  function Preparation(p: Profile, t: Target): nat {
    match p
    case DatahikeS3 => if t.exists_ then 5 else 6
    case DatahikeDynamoDb => if t.exists_ then 2 else 3
    case DatomicDynamoDb => if t.exists_ then 2 else 5
  }

  // The target before it is written to. A new one is tagged and protected; a bucket that
  // is there is protected again, and a table that is there is left as it is.
  function Prepared(p: Profile, t: Target, answers: seq<Answer>): Target
    requires |answers| == Preparation(p, t)
  {
    var tags := Some(Tags(Planned, Migrating));
    match p
    case DatahikeS3 =>
      t.(exists_ := true, tags := if t.exists_ then t.tags else tags,
         publicBlocked := true, encrypted := true, versioned := true)
    case DatahikeDynamoDb =>
      if t.exists_ then t
      else t.(exists_ := true, tags := tags, deletionProtected := true, recovery := true,
              throughput := Some(Throughput(250, 1000)))
    case DatomicDynamoDb =>
      if t.exists_ then t
      else t.(exists_ := true, tags := tags, deletionProtected := true, recovery := true,
              throughput := Some(Throughput(250, 1000)), data := answers[1].restored)
  }

  // A new target, or one that carries the tags the migration looks for.
  predicate Migratable(p: Profile, t: Target) {
    t.exists_ ==>
      t.tags.Some? && t.tags.value.phase == Migrating && (!p.DatahikeS3? ==> t.tags.value.generation == Planned)
  }

  lemma {:induction false} Prepares(remote: Remote, p: Profile, answers: seq<Answer>)
    requires Migratable(p, remote.Of(p)) && |answers| == Preparation(p, remote.Of(p))
    ensures After(System(remote, Migrate(p, Look)), answers)
         == System(remote.With(p, Prepared(p, remote.Of(p), answers)), Migrate(p, Write))
  {
    match p
    case DatahikeS3 => PreparesBucket(remote, answers);
    case DatahikeDynamoDb => PreparesDatahike(remote, answers);
    case DatomicDynamoDb => PreparesDatomic(remote, answers);
  }

  lemma {:induction false} PreparesBucket(remote: Remote, answers: seq<Answer>)
    requires Migratable(DatahikeS3, remote.bucket) && |answers| == Preparation(DatahikeS3, remote.bucket)
    ensures After(System(remote, Migrate(DatahikeS3, Look)), answers)
         == System(remote.(bucket := Prepared(DatahikeS3, remote.bucket, answers)), Migrate(DatahikeS3, Write))
  {
    hide After, PublishCall;
    var s := System(remote, Migrate(DatahikeS3, Look));
    var rest := answers;
    AfterStep(s, rest);
    s, rest := Step(s, Call(rest[0])), rest[1..];
    AfterStep(s, rest);
    s, rest := Step(s, Call(rest[0])), rest[1..];
    if !remote.bucket.exists_ {
      AfterStep(s, rest);
      s, rest := Step(s, Call(rest[0])), rest[1..];
    }
    AfterStep(s, rest);
    s, rest := Step(s, Call(rest[0])), rest[1..];
    AfterStep(s, rest);
    s, rest := Step(s, Call(rest[0])), rest[1..];
    AfterStep(s, rest);
    s, rest := Step(s, Call(rest[0])), rest[1..];
    AfterNothing(s, rest);
  }

  lemma {:induction false} PreparesDatahike(remote: Remote, answers: seq<Answer>)
    requires Migratable(DatahikeDynamoDb, remote.datahike) && |answers| == Preparation(DatahikeDynamoDb, remote.datahike)
    ensures After(System(remote, Migrate(DatahikeDynamoDb, Look)), answers)
         == System(remote.(datahike := Prepared(DatahikeDynamoDb, remote.datahike, answers)), Migrate(DatahikeDynamoDb, Write))
  {
    hide After, PublishCall;
    var s := System(remote, Migrate(DatahikeDynamoDb, Look));
    var rest := answers;
    AfterStep(s, rest);
    s, rest := Step(s, Call(rest[0])), rest[1..];
    AfterStep(s, rest);
    s, rest := Step(s, Call(rest[0])), rest[1..];
    if !remote.datahike.exists_ {
      AfterStep(s, rest);
      s, rest := Step(s, Call(rest[0])), rest[1..];
    }
    AfterNothing(s, rest);
  }

  lemma {:induction false} PreparesDatomic(remote: Remote, answers: seq<Answer>)
    requires Migratable(DatomicDynamoDb, remote.datomic) && |answers| == Preparation(DatomicDynamoDb, remote.datomic)
    ensures After(System(remote, Migrate(DatomicDynamoDb, Look)), answers)
         == System(remote.(datomic := Prepared(DatomicDynamoDb, remote.datomic, answers)), Migrate(DatomicDynamoDb, Write))
  {
    hide After, PublishCall;
    var s := System(remote, Migrate(DatomicDynamoDb, Look));
    var rest := answers;
    AfterStep(s, rest);
    s, rest := Step(s, Call(rest[0])), rest[1..];
    AfterStep(s, rest);
    s, rest := Step(s, Call(rest[0])), rest[1..];
    if !remote.datomic.exists_ {
      AfterStep(s, rest);
      s, rest := Step(s, Call(rest[0])), rest[1..];
      AfterStep(s, rest);
      s, rest := Step(s, Call(rest[0])), rest[1..];
      AfterStep(s, rest);
      s, rest := Step(s, Call(rest[0])), rest[1..];
    }
    AfterNothing(s, rest);
  }

  lemma {:induction false} AfterNothing(s: System, answers: seq<Answer>)
    requires answers == []
    ensures After(s, answers) == s
  {
  }

  // ---------- Whole migrations ----------

  // An uninterrupted migration of a new target or of one under way prepares it and then
  // writes every object; nothing else changes.
  lemma {:induction false} MigrationIs(remote: Remote, p: Profile, answers: seq<Answer>, writes: seq<Answer>)
    requires Migratable(p, remote.Of(p)) && |answers| == Preparation(p, remote.Of(p)) && AllWrites(writes)
    ensures var t := Prepared(p, remote.Of(p), answers);
            Exec(System(remote, Idle), [BeginMigrate(p)] + (CallsOf(answers) + CallsOf(writes)))
            == System(remote.With(p, t.(data := Written(t.data, writes))), Idle)
  {
    var s, t := System(remote, Idle), Prepared(p, remote.Of(p), answers);
    ExecCons(s, BeginMigrate(p), CallsOf(answers) + CallsOf(writes));
    assert Step(s, BeginMigrate(p)) == System(remote, Migrate(p, Look));
    hide Exec, Step, Prepared, Written, AllWrites, Migratable;
    ExecConcat(System(remote, Migrate(p, Look)), CallsOf(answers), CallsOf(writes));
    ExecAfter(System(remote, Migrate(p, Look)), answers);
    Prepares(remote, p, answers);
    WritesAll(remote.With(p, t), p, writes);
    WithTwice(remote, p, t, t.(data := Written(t.data, writes)));
  }

  // Any other target is left alone.
  lemma {:induction false} OthersAreLeftAlone(remote: Remote, p: Profile, answers: seq<Answer>)
    requires !Migratable(p, remote.Of(p))
    ensures Exec(System(remote, Idle), [BeginMigrate(p)] + CallsOf(answers)).remote == remote
  {
    var s := System(remote, Idle);
    ExecCons(s, BeginMigrate(p), CallsOf(answers));
    assert Step(s, BeginMigrate(p)) == System(remote, Migrate(p, Look));
    ExecAfter(System(remote, Migrate(p, Look)), answers);
    hide Exec;
    if |answers| >= 1 {
      AfterStep(System(remote, Migrate(p, Look)), answers);
      if |answers| >= 2 {
        AfterStep(System(remote, Migrate(p, ReadTags)), answers[1..]);
        IdleStaysIdle(remote, answers[2..]);
        assert answers[1..][1..] == answers[2..];
      }
    }
  }

  lemma {:induction false} IdleStaysIdle(remote: Remote, answers: seq<Answer>)
    ensures After(System(remote, Idle), answers) == System(remote, Idle)
    decreases |answers|
  {
    if answers != [] {
      IdleStaysIdle(remote, answers[1..]);
    }
  }

  // However a run goes, the bucket is protected and encrypted by the time it is written to.
  predicate BucketRun(s: System) {
    s.run.Migrate? && s.run.profile == DatahikeS3 ==>
      var t, pc := s.remote.bucket, s.run.mpc;
      && !pc.DeletionProtect? && !pc.Recover?
      && (pc.Encrypt? || pc.Version? || pc.Write? ==> t.publicBlocked)
      && (pc.Version? || pc.Write? ==> t.encrypted)
      && (pc.Write? ==> t.versioned)
  }

  lemma {:induction false} BucketRunStep(s: System, e: Event)
    requires BucketRun(s)
    ensures BucketRun(Step(s, e))
  {
    hide PublishCall, MigrateCall;
    if e.Call? && s.run.Publish? {
      PublishStays(s.remote, s.run.profile, s.run.ppc, e.answer);
    } else if e.Call? && s.run.Migrate? {
      BucketRunCall(s.remote, s.run.profile, s.run.mpc, e.answer);
    }
  }

  lemma {:induction false} BucketRunCall(remote: Remote, p: Profile, pc: MigratePc, a: Answer)
    requires BucketRun(System(remote, Migrate(p, pc)))
    ensures BucketRun(MigrateCall(remote, p, pc, a))
  {
    hide Created;
  }

  lemma {:induction false} PublishStays(remote: Remote, p: Profile, pc: PublishPc, a: Answer)
    ensures !PublishCall(remote, p, pc, a).run.Migrate?
  {
    hide Admissible, Roles;
  }

  lemma {:induction false} BucketIsProtectedWhenWritten(remote: Remote, events: seq<Event>)
    ensures var s := Exec(System(remote, Idle), events);
            s.run == Migrate(DatahikeS3, Write) ==>
              s.remote.bucket.publicBlocked && s.remote.bucket.encrypted && s.remote.bucket.versioned
  {
    hide Step;
    BucketRunExec(remote, events);
  }

  lemma {:induction false} BucketRunExec(remote: Remote, events: seq<Event>)
    ensures BucketRun(Exec(System(remote, Idle), events))
  {
    if events != [] {
      hide Step, BucketRun;
      BucketRunExec(remote, events[..|events| - 1]);
      BucketRunStep(Exec(System(remote, Idle), events[..|events| - 1]), events[|events| - 1]);
    }
  }
}
