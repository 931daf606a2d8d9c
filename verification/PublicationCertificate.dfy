// What stands behind a published target: a certificate and functions with planned roles.
module PublicationCertificate {
  import opened Wrappers
  import opened Publication

  // The answers to the calls among some events.
  function Answers(events: seq<Event>): seq<Answer> {
    if events == [] then []
    else
      var last := events[|events| - 1];
      Answers(events[..|events| - 1]) + if last.Call? then [last.answer] else []
  }

  predicate NoDeath(events: seq<Event>) { forall i :: 0 <= i < |events| ==> events[i] != Die }

  // A publication that has come this far has passed these checks: the certificate first,
  // and then the roles of two functions, which the second and the third call answered.
  predicate Passed(pc: PublishPc, p: Profile, certified: bool, answers: seq<Answer>) {
    match pc
    case Certify(c) => c == certified && answers == []
    case ReadFirstFunction => certified && |answers| == 1
    case ReadSecondFunction => certified && |answers| == 2 && answers[1].role in Roles(p)
    case _ => certified && |answers| >= 3 && answers[1].role in Roles(p) && answers[2].role in Roles(p)
  }

  // The event that began the publication under way, and what has happened since.
  predicate Origin(s: System, events: seq<Event>, i: nat, p: Profile, pc: PublishPc) {
    && i < |events| && events[i].BeginPublish? && events[i].profile == p
    && Exec(s, events[..i]).run.Idle?
    && NoDeath(events[i + 1..])
    && Passed(pc, p, events[i].certified, Answers(events[i + 1..]))
  }

  lemma {:induction false} PassedOn(remote: Remote, p: Profile, pc: PublishPc, certified: bool, answers: seq<Answer>, a: Answer)
    requires Passed(pc, p, certified, answers)
    requires PublishCall(remote, p, pc, a).run.Publish?
    ensures PublishCall(remote, p, pc, a).run.profile == p
    ensures Passed(PublishCall(remote, p, pc, a).run.ppc, p, certified, answers + [a])
  {
    hide Admissible, Roles;
  }

  lemma {:induction false} AnswersSnoc(events: seq<Event>, e: Event)
    ensures Answers(events + [e]) == Answers(events) + if e.Call? then [e.answer] else []
  {
    assert (events + [e])[..|events|] == events;
  }

  // One more event in a run that goes on.
  lemma {:induction false} OriginStays(s: System, events: seq<Event>, i: nat, p: Profile, pc: PublishPc, e: Event)
    requires Origin(s, events, i, p, pc) && Exec(s, events).run == Publish(p, pc)
    requires Exec(s, events + [e]).run.Publish?
    ensures Exec(s, events + [e]).run.profile == p
    ensures Origin(s, events + [e], i, p, Exec(s, events + [e]).run.ppc)
  {
    hide Passed, PublishCall, Exec, Step, NoDeath;
    var u := Exec(s, events);
    ExecSnoc(s, events, e);
    GoesOn(u, e, p, pc);
    EventsAfter(events, i, e);
    AnswersSnoc(events[i + 1..], e);
    if e.Call? {
      PassedOn(u.remote, p, pc, events[i].certified, Answers(events[i + 1..]), e.answer);
    } else {
      assert Answers(events[i + 1..]) + [] == Answers(events[i + 1..]);
    }
  }

  lemma {:induction false} GoesOn(u: System, e: Event, p: Profile, pc: PublishPc)
    requires u.run == Publish(p, pc) && Step(u, e).run.Publish?
    ensures e != Die
    ensures e.Call? ==> Step(u, e).run == PublishCall(u.remote, p, pc, e.answer).run
    ensures !e.Call? ==> Step(u, e).run == u.run
  {
    hide PublishCall;
  }

  lemma {:induction false} EventsAfter(events: seq<Event>, i: nat, e: Event)
    requires i < |events|
    ensures (events + [e])[..i] == events[..i] && (events + [e])[i] == events[i]
    ensures (events + [e])[i + 1..] == events[i + 1..] + [e]
    ensures NoDeath(events[i + 1..]) && e != Die ==> NoDeath((events + [e])[i + 1..])
  {
  }

  // Only a beginning starts a publication.
  lemma {:induction false} StartsOnlyByBegin(u: System, e: Event)
    requires !u.run.Publish? && Step(u, e).run.Publish?
    ensures u.run.Idle? && e.BeginPublish? && Step(u, e).run == Publish(e.profile, Certify(e.certified))
  {
    hide Created;
  }

  // Every publication under way has an origin.
  lemma {:induction false} PublicationHasOrigin(s: System, events: seq<Event>) returns (i: nat)
    requires s.run.Idle? && Exec(s, events).run.Publish?
    ensures Origin(s, events, i, Exec(s, events).run.profile, Exec(s, events).run.ppc)
  {
    hide Origin, Step;
    if events != [] {
      var front, e := events[..|events| - 1], events[|events| - 1];
      var u := Exec(s, front);
      assert events == front + [e];
      if u.run.Publish? {
        i := PublicationHasOrigin(s, front);
        OriginStays(s, front, i, u.run.profile, u.run.ppc, e);
      } else {
        StartsOnlyByBegin(u, e);
        i := |front|;
        NewOrigin(s, front, e);
      }
    }
  }

  lemma {:induction false} NewOrigin(s: System, events: seq<Event>, e: Event)
    requires Exec(s, events).run.Idle? && e.BeginPublish?
    ensures Origin(s, events + [e], |events|, e.profile, Certify(e.certified))
  {
    hide Exec;
    assert (events + [e])[..|events|] == events;
    assert (events + [e])[|events| + 1..] == [];
  }

  // ---------- Who tags a target ready ----------

  // Only the last call of a publication of p makes p ready.
  lemma {:induction false} OnlyTagReadyPublishes(s: System, e: Event, p: Profile)
    requires Invariant(s)
    ensures !IsReady(s.remote, p) && IsReady(Step(s, e).remote, p) ==> e.Call? && s.run == Publish(p, TagReady)
  {
    hide Invariant, MigrateCall, PublishCall, IsReady;
    if e.Call? && !s.run.Idle? {
      if s.run.profile != p {
        OtherStaysUnready(s, e.answer, p);
      } else if s.run.Migrate? {
        MigrationStaysUnready(s, e.answer);
      } else if !s.run.ppc.TagReady? {
        PublicationStaysUnready(s, e.answer);
      }
    }
  }

  lemma {:induction false} OtherStaysUnready(s: System, a: Answer, p: Profile)
    requires !s.run.Idle? && s.run.profile != p
    ensures IsReady(Step(s, Call(a)).remote, p) <==> IsReady(s.remote, p)
  {
    hide Step;
    CallFrame(s, a, p);
  }

  lemma {:induction false} MigrationStaysUnready(s: System, a: Answer)
    requires Invariant(s) && s.run.Migrate?
    ensures IsReady(Step(s, Call(a)).remote, s.run.profile) ==> IsReady(s.remote, s.run.profile)
  {
    hide Step, IsReady, Safe;
    MigrateKeepsOwn(s, a);
  }

  lemma {:induction false} PublicationStaysUnready(s: System, a: Answer)
    requires s.run.Publish? && !s.run.ppc.TagReady?
    ensures IsReady(Step(s, Call(a)).remote, s.run.profile) <==> IsReady(s.remote, s.run.profile)
  {
    hide Admissible;
  }

  // The event that made p ready.
  lemma {:induction false} WhenReady(s: System, events: seq<Event>, p: Profile) returns (k: nat)
    requires !IsReady(s.remote, p) && IsReady(Exec(s, events).remote, p)
    ensures k < |events| && !IsReady(Exec(s, events[..k]).remote, p) && IsReady(Exec(s, events[..k + 1]).remote, p)
  {
    hide IsReady, Step;
    if events != [] {
      var front := events[..|events| - 1];
      if IsReady(Exec(s, front).remote, p) {
        k := WhenReady(s, front, p);
        assert front[..k] == events[..k] && front[..k + 1] == events[..k + 1];
      } else {
        k := |front|;
        assert events[..k + 1] == events;
      }
    }
  }

  // The k-th event made p ready. It is the last call of a publication of p that the i-th
  // event began between runs, with a certificate, and that has not died since; the second
  // and the third call after the beginning answered planned reader roles.
  predicate PublishedBy(s: System, events: seq<Event>, p: Profile, i: nat, k: nat) {
    && i < k < |events|
    && events[i] == BeginPublish(p, true) && Exec(s, events[..i]).run.Idle?
    && NoDeath(events[i + 1..k]) && events[k].Call?
    && !IsReady(Exec(s, events[..k]).remote, p) && IsReady(Exec(s, events[..k + 1]).remote, p)
    && |Answers(events[i + 1..k])| >= 3
    && Answers(events[i + 1..k])[1].role in Roles(p) && Answers(events[i + 1..k])[2].role in Roles(p)
  }

  // Over every run that starts with no ready target: behind a ready target stands a
  // certified publication whose functions have planned roles.
  lemma {:induction false} ReadyTargetsAreCertified(remote: Remote, events: seq<Event>, p: Profile)
    requires forall q :: !IsReady(remote, q)
    requires IsReady(Exec(System(remote, Idle), events).remote, p)
    ensures exists i, k :: PublishedBy(System(remote, Idle), events, p, i, k)
  {
    hide Exec, Step, IsReady, Invariant;
    var s := System(remote, Idle);
    StartIsSafe(remote);
    var k := WhenReady(s, events, p);
    var before := events[..k];
    ExecKeepsInvariant(s, before);
    ExecSnoc(s, before, events[k]);
    assert events[..k + 1] == before + [events[k]];
    OnlyTagReadyPublishes(Exec(s, before), events[k], p);
    var i := PublicationHasOrigin(s, before);
    assert before[..i] == events[..i] && before[i + 1..] == events[i + 1..k] && before[i] == events[i];
    assert PublishedBy(s, events, p, i, k);
  }

  lemma {:induction false} StartIsSafe(remote: Remote)
    requires forall q :: !IsReady(remote, q)
    ensures Invariant(System(remote, Idle))
  {
  }

  // ---------- Runs that are turned away ----------

  // There is no certificate, or one of the two functions has a role that is not planned,
  // or the calls do not get as far as the second of them.
  predicate Rejected(p: Profile, certified: bool, answers: seq<Answer>) {
    !certified || |answers| < 3 || answers[1].role !in Roles(p) || answers[2].role !in Roles(p)
  }

  // Such a publication changes nothing, however far it is let go on.
  lemma {:induction false} RejectedChangesNothing(s: System, p: Profile, certified: bool, answers: seq<Answer>)
    requires s.run.Idle? && Rejected(p, certified, answers)
    ensures Exec(s, [BeginPublish(p, certified)] + CallsOf(answers)).remote == s.remote
  {
    hide Step, Rejected;
    RejectedState(s, p, certified, answers);
  }

  // Where such a publication is after some calls: ended, or still at its checks.
  predicate Waits(run: Run, p: Profile, certified: bool, answers: seq<Answer>) {
    run.Idle? || (run.Publish? && run.profile == p && |answers| < 3 && Passed(run.ppc, p, certified, answers))
  }

  lemma {:induction false} RejectedState(s: System, p: Profile, certified: bool, answers: seq<Answer>)
    requires s.run.Idle? && Rejected(p, certified, answers)
    ensures var u := Exec(s, [BeginPublish(p, certified)] + CallsOf(answers));
            u.remote == s.remote && Waits(u.run, p, certified, answers)
    decreases |answers|
  {
    var begin := BeginPublish(p, certified);
    if answers == [] {
      assert [begin] + CallsOf(answers) == [] + [begin];
      ExecSnoc(s, [], begin);
      assert Exec(s, []) == s;
    } else {
      hide Exec, Step, Rejected, Waits;
      var front, a := answers[..|answers| - 1], answers[|answers| - 1];
      RejectedFront(p, certified, answers);
      RejectedState(s, p, certified, front);
      CallsSnoc(begin, front, a);
      assert answers == front + [a];
      ExecSnoc(s, [begin] + CallsOf(front), Call(a));
      CallRejects(Exec(s, [begin] + CallsOf(front)), p, certified, front, a);
    }
  }

  lemma {:induction false} RejectedFront(p: Profile, certified: bool, answers: seq<Answer>)
    requires answers != [] && Rejected(p, certified, answers)
    ensures Rejected(p, certified, answers[..|answers| - 1])
  {
  }

  lemma {:induction false} CallsSnoc(begin: Event, front: seq<Answer>, a: Answer)
    ensures [begin] + CallsOf(front + [a]) == ([begin] + CallsOf(front)) + [Call(a)]
  {
  }

  lemma {:induction false} CallRejects(u: System, p: Profile, certified: bool, answers: seq<Answer>, a: Answer)
    requires Waits(u.run, p, certified, answers) && Rejected(p, certified, answers + [a])
    ensures Step(u, Call(a)).remote == u.remote && Waits(Step(u, Call(a)).run, p, certified, answers + [a])
  {
    hide Roles, Admissible;
  }

  // ---------- Targets that are turned away ----------

  // A publication that is still at its checks of such a target.
  predicate AtChecks(remote: Remote, run: Run, p: Profile) {
    run.Idle? || (run.Publish? && run.profile == p &&
      var t := remote.Of(p);
      match run.ppc
      case Certify(_) => true
      case ReadFirstFunction => true
      case ReadSecondFunction => true
      case ReadBucketTags => p.DatahikeS3?
      case ReadAccessBlock => p.DatahikeS3? && Admissible(t)
      case ReadVersioning => p.DatahikeS3? && Admissible(t) && t.publicBlocked
      case Describe => !p.DatahikeS3?
      case ReadTableTags(seen) => !p.DatahikeS3? && seen == t
      case ReadBackups(seen) => !p.DatahikeS3? && seen == t && Admissible(t)
      case _ => false)
  }

  lemma {:induction false} CallStaysAtChecks(u: System, p: Profile, a: Answer)
    requires AtChecks(u.remote, u.run, p) && !(Admissible(u.remote.Of(p)) && Protected(u.remote, p))
    ensures Step(u, Call(a)).remote == u.remote && AtChecks(u.remote, Step(u, Call(a)).run, p)
  {
    hide Roles;
  }

  // The publication of a target that is not there, has other tags, or lacks a protection
  // changes nothing.
  lemma {:induction false} UnfitTargetsAreLeftAlone(s: System, p: Profile, certified: bool, answers: seq<Answer>)
    requires s.run.Idle? && !(Admissible(s.remote.Of(p)) && Protected(s.remote, p))
    ensures var u := Exec(s, [BeginPublish(p, certified)] + CallsOf(answers));
            u.remote == s.remote && AtChecks(u.remote, u.run, p)
    decreases |answers|
  {
    var begin := BeginPublish(p, certified);
    if answers == [] {
      assert [begin] + CallsOf(answers) == [] + [begin];
      ExecSnoc(s, [], begin);
      assert Exec(s, []) == s;
    } else {
      hide Exec, Step, AtChecks, Admissible, Protected;
      var front, a := answers[..|answers| - 1], answers[|answers| - 1];
      UnfitTargetsAreLeftAlone(s, p, certified, front);
      CallsSnoc(begin, front, a);
      assert answers == front + [a];
      ExecSnoc(s, [begin] + CallsOf(front), Call(a));
      CallStaysAtChecks(Exec(s, [begin] + CallsOf(front)), p, a);
    }
  }

  // ---------- What a complete target has, spelled out ----------

  lemma {:induction false} CompleteMeans(remote: Remote, p: Profile)
    requires Complete(remote, p)
    ensures var t := remote.Of(p);
            && t.tags == Some(Tags(Planned, Ready))
            && (p.DatahikeS3? ==>
                  && t == remote.bucket && t.publicBlocked && t.versioned
                  && HasGrant(remote.policies, S3Live, p) && HasGrant(remote.policies, S3Large, p))
            && (!p.DatahikeS3? ==> t.deletionProtected && t.recovery && t.throughput == Some(Throughput(250, 1)))
            && (p.DatahikeDynamoDb? ==>
                  && t == remote.datahike
                  && HasGrant(remote.policies, DatahikeLive, p) && HasGrant(remote.policies, DatahikeLarge, p))
            && (p.DatomicDynamoDb? ==>
                  && t == remote.datomic
                  && HasGrant(remote.policies, DatomicServing, p) && HasGrant(remote.policies, DatomicEc2, p))
  {
    assert HasGrant(remote.policies, Roles(p)[0], p) && HasGrant(remote.policies, Roles(p)[1], p);
  }
}
