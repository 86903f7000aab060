/** The two views of the store agree: the statements of one call, run with no other call in between,
    have exactly the effect of the operation taken as one step. */
module PubSubRefinement {
  import opened Basics
  import opened PubSubFilter
  import opened PubSubModel
  import opened PubSubRuns
  import opened PubSubInterleaved

  ghost function Exec(s: Sys, steps: seq<Step>): Sys
    decreases |steps|
  {
    if steps == [] then s else Exec(Next(s, steps[0]), steps[1..])
  }

  lemma {:induction false} ExecConcat(s: Sys, a: seq<Step>, b: seq<Step>)
    ensures Exec(s, a + b) == Exec(Exec(s, a), b)
    decreases |a|
  {
    if a == [] {
      assert a + b == b;
    } else {
      assert (a + b)[1..] == a[1..] + b;
      ExecConcat(Next(s, a[0]), a[1..], b);
    }
  }

  lemma ExecOne(s: Sys, a: Step)
    ensures Exec(s, [a]) == Next(s, a)
  {
    assert [a][1..] == [];
  }

  lemma ExecTwo(s: Sys, a: Step, b: Step)
    ensures Exec(s, [a, b]) == Next(Next(s, a), b)
  {
    assert [a, b] == [a] + [b];
    ExecConcat(s, [a], [b]);
    ExecOne(s, a);
    ExecOne(Next(s, a), b);
  }

  lemma ExecFour(s: Sys, a: Step, b: Step, c: Step, d: Step)
    ensures Exec(s, [a, b, c, d]) == Next(Next(Next(Next(s, a), b), c), d)
  {
    assert [a, b, c, d] == [a, b] + [c, d];
    ExecConcat(s, [a, b], [c, d]);
    ExecTwo(s, a, b);
    ExecTwo(Next(Next(s, a), b), c, d);
  }

  /** Every step in the list belongs to call `tid`. */
  ghost predicate Only(steps: seq<Step>, tid: nat) {
    forall i :: 0 <= i < |steps| ==> (steps[i].Statement? || steps[i].Start?) && steps[i].tid == tid
  }

  /** Statements of call `tid` alone lead from `s` to `s'`. */
  ghost predicate Reaches(s: Sys, s': Sys, tid: nat) {
    exists steps :: Only(steps, tid) && Exec(s, steps) == s'
  }

  lemma ReachesSteps(s: Sys, steps: seq<Step>, tid: nat)
    requires Only(steps, tid)
    ensures Reaches(s, Exec(s, steps), tid)
  {
  }

  lemma ReachesTransitive(s: Sys, s1: Sys, s2: Sys, tid: nat)
    requires Reaches(s, s1, tid) && Reaches(s1, s2, tid)
    ensures Reaches(s, s2, tid)
  {
    var a :| Only(a, tid) && Exec(s, a) == s1;
    var b :| Only(b, tid) && Exec(s1, b) == s2;
    ExecConcat(s, a, b);
    assert Only(a + b, tid);
  }

  // ---------- pull and push ----------

  function NextJob(job: Job): Job
    requires job.rows != []
  {
    job.(rows := job.rows[1..], room := if DeadLetters(job.policy, job.rows[0].msg) then job.room else job.room - 1)
  }

  /** The four statements of a dead-lettering turn. */
  lemma DeadLetterReaches(s: Sys, tid: nat, job: Job, now: Instant) returns (s': Sys)
    requires tid in s.calls && s.calls[tid] == Head(job) && job.rows != [] && job.room > 0
    requires DeadLetters(job.policy, job.rows[0].msg) && job.policy.deadLetterTopic in s.db.topics
    ensures Reaches(s, s', tid) && DeadLetter(s.db, job.name, job.policy, job.rows[0], now) == Ok(s'.db)
    ensures s'.calls == s.calls[tid := Head(job.(rows := job.rows[1..]))]
  {
    var s2 := DeadLetterRead(s, tid, job, now);
    s' := DeadLetterWrite(s2, tid, job, Listing(s.db, job.policy.deadLetterTopic), now);
    ReachesTransitive(s, s2, s', tid);
    assert s2.calls[tid := Head(job.(rows := job.rows[1..]))] == s.calls[tid := Head(job.(rows := job.rows[1..]))];
  }

  lemma DeadLetterRead(s: Sys, tid: nat, job: Job, now: Instant) returns (s': Sys)
    requires tid in s.calls && s.calls[tid] == Head(job) && job.rows != [] && job.room > 0
    requires DeadLetters(job.policy, job.rows[0].msg) && job.policy.deadLetterTopic in s.db.topics
    ensures Reaches(s, s', tid) && s' == Goto(s, tid, DeadLetterCommit(job, Listing(s.db, job.policy.deadLetterTopic)))
  {
    var step := Statement(tid, now, []);
    var s1 := OneReaches(s, step);
    assert s1 == Goto(s, tid, DeadLetterList(job));
    s' := OneReaches(s1, step);
    ReachesTransitive(s, s1, s', tid);
  }

  lemma CommitStep(s: Sys, tid: nat, job: Job, listing: seq<(string, string)>, now: Instant)
    requires tid in s.calls && s.calls[tid] == DeadLetterCommit(job, listing) && job.rows != []
    ensures Next(s, Statement(tid, now, [])) == Goto(CommitPublication(s, DeadLetterOf(job), now, listing), tid, DeadLetterDelete(job))
  {
  }

  lemma DeleteStep(s: Sys, tid: nat, job: Job, now: Instant)
    requires tid in s.calls && s.calls[tid] == DeadLetterDelete(job) && job.rows != []
    ensures Next(s, Statement(tid, now, [])) == Goto(s.(db := DeleteRow(s.db, job.rows[0].ack)), tid, Head(job.(rows := job.rows[1..])))
  {
  }

  lemma DeadLetterWrite(s: Sys, tid: nat, job: Job, listing: seq<(string, string)>, now: Instant) returns (s': Sys)
    requires tid in s.calls && s.calls[tid] == DeadLetterCommit(job, listing) && job.rows != []
    ensures Reaches(s, s', tid) && s'.calls == s.calls[tid := Head(job.(rows := job.rows[1..]))]
    ensures s'.db == DeleteRow(CommitPublication(s, DeadLetterOf(job), now, listing).db, job.rows[0].ack)
  {
    var step := Statement(tid, now, []);
    CommitStep(s, tid, job, listing, now);
    var s1 := OneReaches(s, step);
    DeleteStep(s1, tid, job, now);
    s' := OneReaches(s1, step);
    ReachesTransitive(s, s1, s', tid);
  }

  lemma OneReaches(s: Sys, step: Step) returns (s': Sys)
    requires step.Statement? || step.Start?
    ensures Reaches(s, s', step.tid) && s' == Next(s, step)
  {
    ExecOne(s, step);
    ReachesSteps(s, [step], step.tid);
    s' := Next(s, step);
  }

  /** The statement that keeps a row, or finds that it cannot be republished. */
  lemma KeepReaches(s: Sys, tid: nat, job: Job, now: Instant) returns (s': Sys)
    requires tid in s.calls && s.calls[tid] == Head(job) && job.rows != [] && job.room > 0
    requires !(DeadLetters(job.policy, job.rows[0].msg) && job.policy.deadLetterTopic in s.db.topics)
    ensures Reaches(s, s', tid)
    ensures if DeadLetters(job.policy, job.rows[0].msg) then s' == Finish(s, tid)
            else s' == Goto(s.(db := KeepRow(s.db, job)), tid, Head(NextJob(job)))
  {
    s' := OneReaches(s, Statement(tid, now, []));
    assert s' == RunHead(s, tid, job);
  }

  /** One turn of the loop, or the end of the call when the turn fails. */
  lemma TurnAlone(s: Sys, tid: nat, job: Job, now: Instant) returns (s': Sys)
    requires tid in s.calls && s.calls[tid] == Head(job) && job.mode.Leasing? && job.rows != [] && job.room > 0
    ensures Reaches(s, s', tid)
    ensures var turn := Turn(s.db, job.name, job.policy, job.mode.deadline, now, job.rows[0]);
            if turn.Ok? then s'.db == turn.value && s'.calls == s.calls[tid := Head(NextJob(job))]
            else s'.db == s.db && s'.calls == s.calls - {tid}
  {
    if DeadLetters(job.policy, job.rows[0].msg) && job.policy.deadLetterTopic in s.db.topics {
      s' := DeadLetterReaches(s, tid, job, now);
    } else {
      s' := KeepReaches(s, tid, job, now);
    }
  }

  lemma EndAlone(s: Sys, tid: nat, job: Job, now: Instant) returns (s': Sys)
    requires tid in s.calls && s.calls[tid] == Head(job) && (job.rows == [] || job.room <= 0)
    ensures Reaches(s, s', tid) && s'.db == s.db && s'.calls == s.calls - {tid}
  {
    s' := OneReaches(s, Statement(tid, now, []));
  }

  lemma DropCall(calls: map<nat, Call>, tid: nat, call: Call)
    ensures calls[tid := call] - {tid} == calls - {tid}
  {
  }

  lemma {:induction false} LoopAlone(s: Sys, tid: nat, job: Job, now: Instant) returns (s': Sys)
    requires tid in s.calls && s.calls[tid] == Head(job) && job.mode.Leasing?
    ensures Reaches(s, s', tid)
    ensures s'.db == WorkRows(s.db, job.name, job.policy, job.mode.deadline, now, job.rows, job.room).db
    ensures s'.calls == s.calls - {tid}
    decreases |job.rows|
  {
    if job.rows == [] || job.room <= 0 {
      s' := EndAlone(s, tid, job, now);
    } else {
      var s1 := TurnAlone(s, tid, job, now);
      if Turn(s.db, job.name, job.policy, job.mode.deadline, now, job.rows[0]).Ok? {
        s' := LoopAlone(s1, tid, NextJob(job), now);
        ReachesTransitive(s, s1, s', tid);
        DropCall(s.calls, tid, Head(NextJob(job)));
      } else {
        s' := s1;
      }
    }
  }

  /** The statements by which a pull reads the policy and selects its rows. */
  lemma PullReads(s: Sys, tid: nat, name: string, n: int, job: Job, now: Instant) returns (s': Sys)
    requires tid !in s.calls && name in s.db.subs && n < TWO63
    requires Selected(s.db, name, now, FetchWindow(PullLimit(n)), job.rows)
    requires job == Job(Leasing(LeaseEnd(s.db.subs[name], now)), name, s.db.subs[name], job.rows, PullLimit(n))
    ensures Reaches(s, s', tid) && s' == Goto(s, tid, Head(job))
  {
    var s1 := OneReaches(s, Start(tid, PullBegin(name, n)));
    assert s1 == Goto(s, tid, PullBegin(name, n));
    var s2 := OneReaches(s1, Statement(tid, now, []));
    assert s2 == Goto(s1, tid, PullQuery(name, n, s.db.subs[name]));
    s' := OneReaches(s2, Statement(tid, now, job.rows));
    assert s' == Goto(s2, tid, Head(job));
    ReachesTransitive(s, s1, s2, tid);
    ReachesTransitive(s, s2, s', tid);
  }

  /** A pull whose statements run undisturbed is the one-step Pull. */
  lemma PullAlone(s: Sys, tid: nat, name: string, n: int, now: Instant, rows: seq<Row>) returns (s': Sys)
    requires tid !in s.calls && name in s.db.subs && n < TWO63
    requires Selected(s.db, name, now, FetchWindow(PullLimit(n)), rows)
    ensures Reaches(s, s', tid)
    ensures s'.db == Pull(s.db, name, n, now, rows).db && s'.calls == s.calls
  {
    var policy := s.db.subs[name];
    var job := Job(Leasing(LeaseEnd(policy, now)), name, policy, rows, PullLimit(n));
    var s1 := PullReads(s, tid, name, n, job, now);
    s' := LoopAlone(s1, tid, job, now);
    ReachesTransitive(s, s1, s', tid);
    assert s1.calls - {tid} == s.calls;
  }

  lemma PushRowAlone(s: Sys, tid: nat, job: Job, now: Instant) returns (s': Sys)
    requires tid in s.calls && s.calls[tid] == Head(job) && job.mode == Counting && |job.rows| == 1 && job.room == 1
    ensures Reaches(s, s', tid) && s'.calls == s.calls - {tid}
    ensures s'.db == if DeadLetters(job.policy, job.rows[0].msg) then OrSame(DeadLetter(s.db, job.name, job.policy, job.rows[0], now), s.db)
                     else SetAttempts(s.db, job.rows[0].ack, job.rows[0].msg.attempts + 1)
  {
    var s1;
    if DeadLetters(job.policy, job.rows[0].msg) && job.policy.deadLetterTopic in s.db.topics {
      s1 := DeadLetterReaches(s, tid, job, now);
    } else {
      s1 := KeepReaches(s, tid, job, now);
      if DeadLetters(job.policy, job.rows[0].msg) { return s1; }
    }
    s' := EndAlone(s1, tid, NextJob(job), now);
    ReachesTransitive(s, s1, s', tid);
    DropCall(s.calls, tid, Head(NextJob(job)));
  }

  /** A recorded push failure whose statements run undisturbed is the one-step operation. */
  lemma PushAlone(s: Sys, tid: nat, name: string, ack: AckId, now: Instant) returns (s': Sys)
    requires tid !in s.calls && ack < s.db.nextAck
    ensures Reaches(s, s', tid)
    ensures s'.db == PushFailure(s.db, name, ack, now).db && s'.calls == s.calls
  {
    var s1 := OneReaches(s, Start(tid, PushBegin(name, ack)));
    var s2 := OneReaches(s1, Statement(tid, now, []));
    ReachesTransitive(s, s1, s2, tid);
    if name !in s.db.subs {
      assert s2.calls == s.calls;
      return s2;
    }
    assert s2 == Goto(s, tid, PushQuery(name, ack, s.db.subs[name]));
    s' := PushQueryAlone(s2, tid, name, ack, s.db.subs[name], now);
    ReachesTransitive(s, s2, s', tid);
    assert s2.calls - {tid} == s.calls;
  }

  lemma PushQueryAlone(s: Sys, tid: nat, name: string, ack: AckId, policy: Subscription, now: Instant) returns (s': Sys)
    requires tid in s.calls && s.calls[tid] == PushQuery(name, ack, policy) && name in s.db.subs && s.db.subs[name] == policy
    ensures Reaches(s, s', tid)
    ensures s'.db == PushFailure(s.db, name, ack, now).db && s'.calls == s.calls - {tid}
  {
    var s3 := OneReaches(s, Statement(tid, now, []));
    if ack !in s.db.msgs || s.db.msgs[ack].subscription != name { return s3; }
    var job := Job(Counting, name, policy, [Row(ack, s.db.msgs[ack])], 1);
    assert s3 == Goto(s, tid, Head(job));
    s' := PushRowAlone(s3, tid, job, now);
    ReachesTransitive(s, s3, s', tid);
    assert s3.calls - {tid} == s.calls - {tid};
  }

  // ---------- the other calls ----------

  function Alone(tid: nat, call: Call, now: Instant): seq<Step> {
    [Start(tid, call), Statement(tid, now, []), Statement(tid, now, []), Statement(tid, now, [])]
  }

  lemma PublishFirst(s: Sys, tid: nat, topic: string, data: Bytes, attributes: Attributes, now: Instant)
    requires tid !in s.calls
    ensures var s2 := Next(Next(s, Start(tid, PublishBegin(topic, data, attributes))), Statement(tid, now, []));
            if topic in s.db.topics then s2 == Goto(s, tid, PublishList(topic, data, attributes))
            else s2.db == s.db && s2.calls == s.calls
  {
    var s1 := Next(s, Start(tid, PublishBegin(topic, data, attributes)));
    assert s1 == Goto(s, tid, PublishBegin(topic, data, attributes));
    var s2 := Next(s1, Statement(tid, now, []));
    if topic in s.db.topics {
      assert s2 == Goto(s1, tid, PublishList(topic, data, attributes));
    } else {
      assert s2.calls == s.calls;
    }
  }

  lemma ListStep(s: Sys, tid: nat, topic: string, data: Bytes, attributes: Attributes, now: Instant)
    requires tid in s.calls && s.calls[tid] == PublishList(topic, data, attributes)
    ensures Next(s, Statement(tid, now, [])) == Goto(s, tid, PublishCommit(topic, data, attributes, Listing(s.db, topic)))
  {
  }

  lemma PublishLast(s: Sys, tid: nat, topic: string, data: Bytes, attributes: Attributes, listing: seq<(string, string)>, now: Instant)
    requires tid in s.calls && s.calls[tid] == PublishCommit(topic, data, attributes, listing)
    ensures var s' := Next(s, Statement(tid, now, []));
            s'.db == Commit(s.db, topic, data, attributes, now, Targets(s.db.lang, listing, attributes)) && s'.calls == s.calls - {tid}
  {
  }

  lemma Idles(s: Sys, tid: nat, now: Instant)
    requires tid !in s.calls
    ensures Next(s, Statement(tid, now, [])) == s
  {
  }

  lemma PublishAlone(s: Sys, tid: nat, topic: string, data: Bytes, attributes: Attributes, now: Instant)
    requires tid !in s.calls
    ensures var s' := Exec(s, Alone(tid, PublishBegin(topic, data, attributes), now));
            s'.db == OrSame(Publish(s.db, topic, data, attributes, now), s.db) && s'.calls == s.calls
  {
    var step := Statement(tid, now, []);
    var call := PublishBegin(topic, data, attributes);
    ExecFour(s, Start(tid, call), step, step, step);
    PublishFirst(s, tid, topic, data, attributes, now);
    var s2 := Next(Next(s, Start(tid, call)), step);
    if topic in s.db.topics {
      ListStep(s2, tid, topic, data, attributes, now);
      var s3 := Next(s2, step);
      PublishLast(s3, tid, topic, data, attributes, Listing(s.db, topic), now);
      assert s3.calls - {tid} == s.calls;
    } else {
      Idles(s2, tid, now);
    }
  }

  lemma CreateAlone(s: Sys, tid: nat, req: NewSubscription, now: Instant)
    requires tid !in s.calls
    ensures var s' := Exec(s, Alone(tid, CreateBegin(req), now));
            s'.db == OrSame(CreateSubscription(s.db, req), s.db) && s'.calls == s.calls
  {
    var step := Statement(tid, now, []);
    ExecFour(s, Start(tid, CreateBegin(req)), step, step, step);
    var s1 := Next(s, Start(tid, CreateBegin(req)));
    var s2 := Next(s1, step);
    assert s2 == Goto(s1, tid, CreateCheck(req, s.db.topics));
    CreateRest(s2, tid, req, now);
    assert s2.calls - {tid} == s.calls;
  }

  lemma CreateRest(s: Sys, tid: nat, req: NewSubscription, now: Instant)
    requires tid in s.calls && s.calls[tid] == CreateCheck(req, s.db.topics)
    ensures var step := Statement(tid, now, []);
            var s' := Next(Next(s, step), step);
            s'.db == OrSame(CreateSubscription(s.db, req), s.db) && s'.calls == s.calls - {tid}
  {
    var step := Statement(tid, now, []);
    var row := CheckedRow(s.db.lang, s.db.topics, s.db.topics, req);
    var name := req.name;
    var s3 := Next(s, step);
    if row.Ok? {
      assert s3 == Goto(s, tid, CreateInsert(name, row.value));
      assert CreateSubscription(s.db, req) == Ok(InsertSubscription(s.db, name, row.value));
    } else {
      assert s3 == Finish(s, tid);
    }
    assert Next(s3, step).calls == s.calls - {tid};
  }

  lemma UpdateAlone(s: Sys, tid: nat, name: string, patch: Patch, now: Instant)
    requires tid !in s.calls
    ensures var s' := Exec(s, Alone(tid, UpdateBegin(name, patch), now));
            s'.db == OrSame(UpdateSubscription(s.db, name, patch), s.db) && s'.calls == s.calls
  {
    var step := Statement(tid, now, []);
    ExecFour(s, Start(tid, UpdateBegin(name, patch)), step, step, step);
    var s1 := Next(s, Start(tid, UpdateBegin(name, patch)));
    var s2 := Next(s1, step);
    if name in s.db.subs {
      var row := s.db.subs[name];
      assert s2 == Goto(s1, tid, UpdateCheck(name, patch, row));
      var s3 := Next(s2, step);
      var r := Patched(s.db.lang, s.db.topics, row, patch);
      assert s3 == if r.Ok? then Goto(s2, tid, UpdateWrite(name, r.value)) else Finish(s2, tid);
      assert Next(s3, step).calls == s.calls;
    } else {
      assert s2.calls == s.calls;
    }
  }

  lemma SeekAlone(s: Sys, tid: nat, name: string, t: Instant, now: Instant)
    requires tid !in s.calls
    ensures var s' := Exec(s, Alone(tid, SeekBegin(name, t), now));
            s'.db == OrSame(Seek(s.db, name, t), s.db) && s'.calls == s.calls
  {
    var step := Statement(tid, now, []);
    ExecFour(s, Start(tid, SeekBegin(name, t)), step, step, step);
    var s1 := Next(s, Start(tid, SeekBegin(name, t)));
    var s2 := Next(s1, step);
    if name in s.db.subs {
      assert s2 == Goto(s1, tid, SeekRun(name, t));
      assert Next(s2, step).calls == s.calls;
    } else {
      assert s2.calls == s.calls;
    }
  }
}
