/** Safety of the interleaved system over whole histories: no message is lost. */
module PubSubSafety {
  import opened Basics
  import opened PubSubModel
  import opened PubSubRuns
  import opened PubSubInterleaved

  ghost predicate IsHistory(states: seq<Sys>, steps: seq<Step>) {
    && |states| == |steps| + 1
    && forall i {:trigger steps[i]} :: 0 <= i < |steps| ==> states[i + 1] == Next(states[i], steps[i])
  }

  lemma {:induction false} HistoryOk(states: seq<Sys>, steps: seq<Step>, i: nat, j: nat)
    requires IsHistory(states, steps) && i <= j < |states| && SysOk(states[i])
    ensures SysOk(states[j]) && Extends(states[i].db, states[j].db)
  {
    if i < j {
      HistoryOk(states, steps, i, j - 1);
      NextOk(states[j - 1], steps[j - 1]);
    }
  }

  // ---------- one step ----------

  /** The step acknowledges this message by its ack id. */
  predicate Acknowledges(step: Step, m: Message, a: AckId) {
    step.AcknowledgeStep? && step.name == m.subscription && a in step.ids
  }

  /** The step is the transaction of a seek past the message. */
  predicate SeeksPast(s: Sys, step: Step, m: Message) {
    && step.Statement? && step.tid in s.calls && s.calls[step.tid].SeekRun?
    && s.calls[step.tid].name == m.subscription && m.publishTime < s.calls[step.tid].t
  }

  /** The step is the DELETE of a call that has just committed the message to its dead-letter topic. */
  predicate DeletesRepublished(s: Sys, step: Step, m: Message, a: AckId) {
    && step.Statement? && step.tid in s.calls && s.calls[step.tid].DeadLetterDelete?
    && var job := s.calls[step.tid].job;
    && job.rows != [] && job.rows[0].ack == a && job.policy.deadLetterTopic != ""
    && DeadLetterOf(job) == Publication(job.policy.deadLetterTopic, m.data, m.attributes[SOURCE := m.subscription])
  }

  predicate Justified(s: Sys, step: Step, m: Message, a: AckId) {
    || Acknowledges(step, m, a)
    || SeeksPast(s, step, m)
    || (step.DeleteSubscriptionStep? && step.name == m.subscription)
    || DeletesRepublished(s, step, m, a)
  }

  lemma StatementKeepsMessage(s: Sys, tid: nat, now: Instant, rows: seq<Row>, a: AckId)
    requires SysOk(s) && tid in s.calls && a in s.db.msgs
    requires a !in RunCall(s, tid, s.calls[tid], now, rows).db.msgs
    ensures Justified(s, Statement(tid, now, rows), s.db.msgs[a], a)
  {
    var call := s.calls[tid];
    assert CallOk(s.db, call);
    if call.DeadLetterCommit? && call.job.rows != [] {
      CommitOk(s, DeadLetterOf(call.job), now, call.listing);
    } else if call.PublishCommit? {
      CommitOk(s, Publication(call.topic, call.data, call.attributes), now, call.listing);
    } else if call.DeadLetterDelete? {
      var row := call.job.rows[0];
      assert SameContent(row.msg, s.db.msgs[a]);
    }
  }

  /** One step loses a message only by an acknowledgement naming it, a seek past it, the deletion of its
      subscription, or the DELETE that follows the same call's dead-letter publish of it. */
  lemma NoLossStep(s: Sys, step: Step, a: AckId)
    requires SysOk(s) && a in s.db.msgs && a !in Next(s, step).db.msgs
    ensures Justified(s, step, s.db.msgs[a], a)
  {
    if step.Statement? && step.tid in s.calls { StatementKeepsMessage(s, step.tid, step.now, step.rows, a); }
  }

  // ---------- the commit before the DELETE ----------

  /** Step c is the transaction of call `tid` that commits its dead-letter publish, under the listing it read. */
  ghost predicate Commits(states: seq<Sys>, steps: seq<Step>, c: nat, tid: nat, job: Job)
    requires c < |steps| && |states| == |steps| + 1
  {
    && steps[c].Statement? && steps[c].tid == tid && tid in states[c].calls
    && states[c].calls[tid].DeadLetterCommit? && states[c].calls[tid].job == job && job.rows != []
    && states[c + 1].db == CommitPublication(states[c], DeadLetterOf(job), steps[c].now, states[c].calls[tid].listing).db
  }

  /** The call has been at its DELETE in every state from c + 1 to k. */
  ghost predicate WaitsToDelete(states: seq<Sys>, c: nat, k: nat, tid: nat, job: Job) {
    forall x :: c < x <= k < |states| ==> tid in states[x].calls && states[x].calls[tid] == DeadLetterDelete(job)
  }

  lemma {:induction false} CommittedBefore(states: seq<Sys>, steps: seq<Step>, k: nat, tid: nat)
    requires IsHistory(states, steps) && k < |states| && SysOk(states[0]) && states[0].calls == map[]
    requires tid in states[k].calls && states[k].calls[tid].DeadLetterDelete?
    ensures exists c: nat :: c < k && Commits(states, steps, c, tid, states[k].calls[tid].job) && WaitsToDelete(states, c, k, tid, states[k].calls[tid].job)
  {
    var job := states[k].calls[tid].job;
    HistoryOk(states, steps, 0, k - 1);
    var s, step := states[k - 1], steps[k - 1];
    if tid in s.calls && s.calls[tid] == DeadLetterDelete(job) {
      CommittedBefore(states, steps, k - 1, tid);
      var c: nat :| c < k - 1 && Commits(states, steps, c, tid, job) && WaitsToDelete(states, c, k - 1, tid, job);
      assert WaitsToDelete(states, c, k, tid, job);
    } else {
      BecomesDelete(s, step, tid);
      assert Commits(states, steps, k - 1, tid, job);
      assert WaitsToDelete(states, k - 1, k, tid, job);
    }
  }

  /** A call comes to its DELETE only by the transaction before it. */
  lemma BecomesDelete(s: Sys, step: Step, tid: nat)
    requires var s' := Next(s, step);
             tid in s'.calls && s'.calls[tid].DeadLetterDelete? && !(tid in s.calls && s.calls[tid] == s'.calls[tid])
    ensures var job := Next(s, step).calls[tid].job;
            && step.Statement? && step.tid == tid && tid in s.calls
            && s.calls[tid].DeadLetterCommit? && s.calls[tid].job == job && job.rows != []
            && Next(s, step).db == CommitPublication(s, DeadLetterOf(job), step.now, s.calls[tid].listing).db
  {
    if step.Statement? && step.tid in s.calls {
      var call := s.calls[step.tid];
      if call.Delivers() { assert RunCall(s, step.tid, call, step.now, step.rows) == RunDelivery(s, step.tid, call, step.now, step.rows); }
    }
  }

  // ---------- whole histories ----------

  /** The message goes at step k, and for an allowed reason. If it is a dead-letter DELETE, an earlier step of
      the same call committed the message's data and attributes, with the source subscription added, to the
      dead-letter topic. */
  ghost predicate LeavesAt(states: seq<Sys>, steps: seq<Step>, k: nat, m: Message, a: AckId)
    requires k < |steps| && |states| == |steps| + 1
  {
    && Justified(states[k], steps[k], m, a)
    && (DeletesRepublished(states[k], steps[k], m, a) ==>
          var tid := steps[k].tid;
          exists c: nat :: c < k && Commits(states, steps, c, tid, states[k].calls[tid].job) && WaitsToDelete(states, c, k, tid, states[k].calls[tid].job))
  }

  /** In a history that begins with no call in flight, a message in the table at i and gone at j left at some
      step in between, for one of the allowed reasons. */
  lemma {:induction false} NoLoss(states: seq<Sys>, steps: seq<Step>, i: nat, j: nat, a: AckId)
    requires IsHistory(states, steps) && i <= j < |states| && SysOk(states[0]) && states[0].calls == map[]
    requires a in states[i].db.msgs && a !in states[j].db.msgs
    ensures exists k :: i <= k < j && a in states[k].db.msgs && a !in states[k + 1].db.msgs
                        && SameContent(states[i].db.msgs[a], states[k].db.msgs[a])
                        && LeavesAt(states, steps, k, states[k].db.msgs[a], a)
  {
    if i < j {
      if a in states[j - 1].db.msgs {
        HistoryOk(states, steps, 0, j - 1);
        HistoryOk(states, steps, 0, i);
        HistoryOk(states, steps, i, j - 1);
        NoLossStep(states[j - 1], steps[j - 1], a);
        if DeletesRepublished(states[j - 1], steps[j - 1], states[j - 1].db.msgs[a], a) {
          CommittedBefore(states, steps, j - 1, steps[j - 1].tid);
        }
        assert LeavesAt(states, steps, j - 1, states[j - 1].db.msgs[a], a);
        assert a !in states[(j - 1) + 1].db.msgs;
      } else {
        NoLoss(states, steps, i, j - 1, a);
      }
    }
  }
}
