/** Leases when pulls run statement by statement: which interleavings hand out a message twice. */
module PubSubLeases {
  import opened Basics
  import opened PubSubModel
  import opened PubSubInterleaved
  import opened PubSubSafety

  /** Step k is the SELECT of pull `tid`, and message `a` is among the rows it reads. */
  ghost predicate Selects(states: seq<Sys>, steps: seq<Step>, k: nat, tid: nat, name: string, a: AckId) {
    && k < |steps| < |states| && steps[k].Statement? && steps[k].tid == tid && tid in states[k].calls
    && states[k].calls[tid].PullQuery? && states[k].calls[tid].name == name
    && tid in states[k + 1].calls && states[k + 1].calls[tid].Head? && HasAck(states[k + 1].calls[tid].job.rows, a)
  }

  /** Step k is the UPDATE with which pull `tid` leases message `a` until `deadline`. */
  predicate LeasesIn(s: Sys, step: Step, tid: nat, a: AckId, deadline: Instant) {
    && step.Statement? && step.tid == tid && tid in s.calls && s.calls[tid].Head?
    && var job := s.calls[tid].job;
    && job.rows != [] && job.room > 0 && job.rows[0].ack == a && job.mode == Leasing(deadline)
    && !DeadLetters(job.policy, job.rows[0].msg) && a in s.db.msgs
  }

  /** The step gives message `a` of the subscription another deadline, or none. */
  ghost predicate Retimes(s: Sys, step: Step, name: string, a: AckId) {
    || (step.ModifyAckDeadlineStep? && step.name == name && a in step.ids)
    || (step.Statement? && step.tid in s.calls && s.calls[step.tid].SeekRun? && s.calls[step.tid].name == name)
    || (step.Statement? && exists d :: LeasesIn(s, step, step.tid, a, d))
  }

  /** Message `a` is leased until `deadline`, or gone for good. */
  predicate Held(db: Db, name: string, a: AckId, deadline: Instant) {
    && a < db.nextAck
    && (a in db.msgs ==> db.msgs[a].subscription == name && db.msgs[a].delivered && db.msgs[a].ackDeadline == Some(deadline))
  }

  lemma HeadHolds(s: Sys, tid: nat, job: Job, name: string, a: AckId, deadline: Instant)
    requires SysOk(s) && tid in s.calls && s.calls[tid] == Head(job) && Held(s.db, name, a, deadline)
    requires forall now, rows, d :: !LeasesIn(s, Statement(tid, now, rows), tid, a, d)
    ensures Held(RunHead(s, tid, job).db, name, a, deadline)
  {
    if job.rows != [] && job.room > 0 && !DeadLetters(job.policy, job.rows[0].msg) && job.mode.Leasing? {
      assert !LeasesIn(s, Statement(tid, 0, []), tid, a, job.mode.deadline);
    }
  }

  lemma CommitHolds(s: Sys, p: Publication, now: Instant, listing: seq<(string, string)>, name: string, a: AckId, deadline: Instant)
    requires SysOk(s) && Held(s.db, name, a, deadline)
    ensures Held(CommitPublication(s, p, now, listing).db, name, a, deadline)
  {
    CommitOk(s, p, now, listing);
  }

  lemma StatementHolds(s: Sys, step: Step, name: string, a: AckId, deadline: Instant)
    requires SysOk(s) && step.Statement? && step.tid in s.calls && Held(s.db, name, a, deadline) && !Retimes(s, step, name, a)
    ensures Held(Next(s, step).db, name, a, deadline)
  {
    var tid, call := step.tid, s.calls[step.tid];
    assert CallOk(s.db, call);
    if call.Head? {
      forall now, rows, d ensures !LeasesIn(s, Statement(tid, now, rows), tid, a, d) {
        assert LeasesIn(s, Statement(tid, now, rows), tid, a, d) ==> LeasesIn(s, step, tid, a, d);
      }
      HeadHolds(s, tid, call.job, name, a, deadline);
    } else if call.DeadLetterCommit? {
      if call.job.rows != [] { CommitHolds(s, DeadLetterOf(call.job), step.now, call.listing, name, a, deadline); }
    } else if call.PublishCommit? {
      CommitHolds(s, Publication(call.topic, call.data, call.attributes), step.now, call.listing, name, a, deadline);
    } else if call.Configures() {
      assert Next(s, step).db.msgs == s.db.msgs;
    }
  }

  lemma StepHolds(s: Sys, step: Step, name: string, a: AckId, deadline: Instant)
    requires SysOk(s) && Held(s.db, name, a, deadline) && !Retimes(s, step, name, a)
    ensures Held(Next(s, step).db, name, a, deadline)
  {
    if step.Statement? && step.tid in s.calls { StatementHolds(s, step, name, a, deadline); }
  }

  lemma {:induction false} HeldBetween(states: seq<Sys>, steps: seq<Step>, i: nat, j: nat, name: string, a: AckId, deadline: Instant)
    requires IsHistory(states, steps) && i <= j < |states| && SysOk(states[i]) && Held(states[i].db, name, a, deadline)
    requires forall m :: i <= m < j ==> !Retimes(states[m], steps[m], name, a)
    ensures Held(states[j].db, name, a, deadline)
  {
    if i < j {
      HeldBetween(states, steps, i, j - 1, name, a, deadline);
      HistoryOk(states, steps, i, j - 1);
      StepHolds(states[j - 1], steps[j - 1], name, a, deadline);
    }
  }

  lemma LeaseHolds(s: Sys, step: Step, tid: nat, name: string, a: AckId, deadline: Instant)
    requires SysOk(s) && LeasesIn(s, step, tid, a, deadline) && s.db.msgs[a].subscription == name
    ensures Held(Next(s, step).db, name, a, deadline)
  {
    assert Next(s, step) == RunHead(s, tid, s.calls[tid].job);
  }

  /** A SELECT reads only rows available at its time. */
  lemma SelectedIsAvailable(s: Sys, step: Step, name: string, a: AckId)
    requires step.Statement? && step.tid in s.calls && s.calls[step.tid].PullQuery? && s.calls[step.tid].name == name
    requires var s' := Next(s, step); step.tid in s'.calls && s'.calls[step.tid].Head? && HasAck(s'.calls[step.tid].job.rows, a)
    ensures a in s.db.msgs && Available(s.db.msgs[a], name, step.now)
  {
    var rows := Next(s, step).calls[step.tid].job.rows;
    var i :| 0 <= i < |rows| && rows[i].ack == a;
  }

  /** A pull that selects a message after another pull's UPDATE has leased it does so only when that lease is
      over, unless the deadline was changed in between. So two pulls hold overlapping leases on one message only
      when the later one made its SELECT before the UPDATE of the earlier one. */
  lemma OverlapNeedsEarlySelect(states: seq<Sys>, steps: seq<Step>, u: nat, q: nat, first: nat, second: nat, name: string, a: AckId, deadline: Instant)
    requires IsHistory(states, steps) && u < |steps| && SysOk(states[u])
    requires LeasesIn(states[u], steps[u], first, a, deadline) && states[u].db.msgs[a].subscription == name
    requires Selects(states, steps, q, second, name, a) && steps[q].now <= deadline
    requires forall m :: u < m < q ==> !Retimes(states[m], steps[m], name, a)
    ensures q <= u
  {
    if u < q {
      LeaseHolds(states[u], steps[u], first, name, a, deadline);
      HistoryOk(states, steps, u, u + 1);
      HeldBetween(states, steps, u + 1, q, name, a, deadline);
      SelectedIsAvailable(states[q], steps[q], name, a);
      assert false;
    }
  }

  /** And every such interleaving does hand the message out twice: once two pulls have both selected it, both
      lease it, one after the other, whatever the clock shows. */
  lemma BothSelectBothLease(s: Sys, first: nat, second: nat, a: AckId, jobs: (Job, Job), d1: Instant, d2: Instant, now: Instant)
    requires first != second && first in s.calls && second in s.calls && a in s.db.msgs
    requires s.calls[first] == Head(jobs.0) && s.calls[second] == Head(jobs.1)
    requires jobs.0.rows != [] && jobs.0.room > 0 && jobs.0.rows[0].ack == a && jobs.0.mode == Leasing(d1) && !DeadLetters(jobs.0.policy, jobs.0.rows[0].msg)
    requires jobs.1.rows != [] && jobs.1.room > 0 && jobs.1.rows[0].ack == a && jobs.1.mode == Leasing(d2) && !DeadLetters(jobs.1.policy, jobs.1.rows[0].msg)
    ensures var s1 := Next(s, Statement(first, now, []));
            LeasesIn(s, Statement(first, now, []), first, a, d1) && LeasesIn(s1, Statement(second, now, []), second, a, d2)
  {
    assert Next(s, Statement(first, now, [])) == RunHead(s, first, jobs.0);
  }
}
