/** How often a message can be delivered before it is dead-lettered, under any interleaving: fewer times than
    the limit of its subscription, exactly when no pull in flight has read an older policy that would let it
    be leased once more. */
module PubSubBound {
  import opened Basics
  import opened PubSubModel
  import opened PubSubRuns
  import opened PubSubInterleaved
  import opened PubSubRefinement

  /** The subscription row asks for dead-lettering at `limit` attempts. */
  predicate Limits(policy: Subscription, limit: int) {
    policy.deadLetterTopic != "" && policy.maxDeliveryAttempts == limit
  }

  /** A call that holds this policy stops at `limit` attempts or before. */
  predicate Caps(policy: Subscription, limit: int) {
    policy.deadLetterTopic != "" && 0 < policy.maxDeliveryAttempts <= limit
  }

  /** The subscription asks for dead-lettering at `limit` attempts in every state the steps go through. */
  ghost predicate PolicyKept(s: Sys, steps: seq<Step>, name: string, limit: int)
    decreases |steps|
  {
    && name in s.db.subs && Limits(s.db.subs[name], limit)
    && (steps == [] || PolicyKept(Next(s, steps[0]), steps[1..], name, limit))
  }

  /** No pull between its two queries holds a policy that does not cap at `limit`. */
  ghost predicate NoStalePull(s: Sys, name: string, limit: int) {
    forall tid :: tid in s.calls && s.calls[tid].PullQuery? && s.calls[tid].name == name ==> Caps(s.calls[tid].policy, limit)
  }

  /** Message `a` of the subscription is stored with fewer than `limit` attempts, or not at all. */
  predicate Below(db: Db, name: string, a: AckId, limit: int) {
    a in db.msgs && db.msgs[a].subscription == name ==> db.msgs[a].attempts < limit
  }

  // ---------- the bound ----------

  /** What the call has read cannot bring message `a` to `limit` attempts. */
  ghost predicate CallBounded(call: Call, name: string, a: AckId, limit: int) {
    && (call.PullQuery? && call.name == name ==> Caps(call.policy, limit))
    && (call.PushQuery? && call.name == name && call.ack == a ==> Caps(call.policy, limit))
    && (call.HasJob() && call.job.name == name ==> JobBounded(call.job, a, limit))
  }

  ghost predicate JobBounded(job: Job, a: AckId, limit: int) {
    forall i :: 0 <= i < |job.rows| && job.rows[i].ack == a ==> job.rows[i].msg.attempts < limit && Caps(job.policy, limit)
  }

  ghost predicate Bounded(s: Sys, name: string, a: AckId, limit: int) {
    && Below(s.db, name, a, limit)
    && forall tid :: tid in s.calls ==> CallBounded(s.calls[tid], name, a, limit)
  }

  /** A step that changes only this call keeps the bound if the call and the message row do. */
  lemma OneCallBounded(s: Sys, s': Sys, tid: nat, name: string, a: AckId, limit: int)
    requires Bounded(s, name, a, limit)
    requires forall t :: t in s'.calls && t != tid ==> t in s.calls && s'.calls[t] == s.calls[t]
    requires tid in s'.calls ==> CallBounded(s'.calls[tid], name, a, limit)
    requires Below(s'.db, name, a, limit)
    ensures Bounded(s', name, a, limit)
  {
  }

  lemma CommitBounded(s: Sys, p: Publication, now: Instant, listing: seq<(string, string)>, name: string, a: AckId, limit: int)
    requires SysOk(s) && Bounded(s, name, a, limit) && limit > 0
    ensures var s' := CommitPublication(s, p, now, listing); s'.calls == s.calls && Below(s'.db, name, a, limit)
  {
    CommitOk(s, p, now, listing);
  }

  lemma TailBounded(job: Job, room: int, a: AckId, limit: int)
    requires JobBounded(job, a, limit) && job.rows != []
    ensures JobBounded(job.(rows := job.rows[1..], room := room), a, limit)
  {
    forall i | 0 <= i < |job.rows[1..]| ensures job.rows[1..][i] == job.rows[i + 1] {}
  }

  lemma HeadBounded(s: Sys, tid: nat, job: Job, name: string, a: AckId, limit: int)
    requires SysOk(s) && tid in s.calls && s.calls[tid] == Head(job) && Bounded(s, name, a, limit) && limit > 0
    ensures Bounded(RunHead(s, tid, job), name, a, limit)
  {
    assert CallOk(s.db, Head(job)) && CallBounded(Head(job), name, a, limit);
    if job.rows != [] && job.room > 0 && !DeadLetters(job.policy, job.rows[0].msg) {
      if job.name == name { TailBounded(job, job.room - 1, a, limit); }
      var row := job.rows[0];
      if row.ack == a && a in s.db.msgs && s.db.msgs[a].subscription == name {
        assert SameContent(row.msg, s.db.msgs[a]);
      }
    }
  }

  /** The SELECT of a pull reads rows that are below the limit, under a policy that caps. */
  lemma QueryBounded(s: Sys, tid: nat, call: Call, now: Instant, rows: seq<Row>, name: string, a: AckId, limit: int)
    requires SysOk(s) && tid in s.calls && s.calls[tid] == call && Bounded(s, name, a, limit) && (call.PullQuery? || call.PushQuery?)
    ensures Bounded(RunDelivery(s, tid, call, now, rows), name, a, limit)
  {
    assert CallBounded(call, name, a, limit);
    OneCallBounded(s, RunDelivery(s, tid, call, now, rows), tid, name, a, limit);
  }

  /** Reading the subscription row gives the policy that is kept. */
  lemma BeginBounded(s: Sys, tid: nat, call: Call, now: Instant, rows: seq<Row>, name: string, a: AckId, limit: int)
    requires SysOk(s) && tid in s.calls && s.calls[tid] == call && Bounded(s, name, a, limit) && (call.PullBegin? || call.PushBegin?)
    requires name in s.db.subs && Limits(s.db.subs[name], limit) && limit > 0
    ensures Bounded(RunDelivery(s, tid, call, now, rows), name, a, limit)
  {
    OneCallBounded(s, RunDelivery(s, tid, call, now, rows), tid, name, a, limit);
  }

  lemma DeadLetterBounded(s: Sys, tid: nat, call: Call, now: Instant, rows: seq<Row>, name: string, a: AckId, limit: int)
    requires SysOk(s) && tid in s.calls && s.calls[tid] == call && Bounded(s, name, a, limit) && limit > 0
    requires call.DeadLetterList? || call.DeadLetterCommit? || call.DeadLetterDelete?
    ensures Bounded(RunDelivery(s, tid, call, now, rows), name, a, limit)
  {
    assert CallOk(s.db, call) && CallBounded(call, name, a, limit);
    if call.DeadLetterCommit? { CommitBounded(s, DeadLetterOf(call.job), now, call.listing, name, a, limit); }
    if call.DeadLetterDelete? && call.job.name == name { TailBounded(call.job, call.job.room, a, limit); }
    OneCallBounded(s, RunDelivery(s, tid, call, now, rows), tid, name, a, limit);
  }

  lemma ConfigurationBounded(s: Sys, tid: nat, call: Call, name: string, a: AckId, limit: int)
    requires tid in s.calls && s.calls[tid] == call && Bounded(s, name, a, limit) && call.Configures()
    ensures Bounded(RunConfiguration(s, tid, call), name, a, limit)
  {
    var s' := RunConfiguration(s, tid, call);
    assert s'.db.msgs == s.db.msgs;
    OneCallBounded(s, s', tid, name, a, limit);
  }

  lemma RequestBounded(s: Sys, tid: nat, call: Call, now: Instant, name: string, a: AckId, limit: int)
    requires SysOk(s) && tid in s.calls && s.calls[tid] == call && Bounded(s, name, a, limit) && limit > 0
    requires !call.Delivers() && !call.Configures()
    ensures Bounded(RunRequest(s, tid, call, now), name, a, limit)
  {
    if call.PublishCommit? { CommitBounded(s, Publication(call.topic, call.data, call.attributes), now, call.listing, name, a, limit); }
    OneCallBounded(s, RunRequest(s, tid, call, now), tid, name, a, limit);
  }

  lemma NextBounded(s: Sys, step: Step, name: string, a: AckId, limit: int)
    requires SysOk(s) && Bounded(s, name, a, limit) && limit > 0
    requires name in s.db.subs && Limits(s.db.subs[name], limit)
    ensures Bounded(Next(s, step), name, a, limit)
  {
    if step.Statement? && step.tid in s.calls {
      var tid, call := step.tid, s.calls[step.tid];
      if call.Configures() { ConfigurationBounded(s, tid, call, name, a, limit); }
      else if !call.Delivers() { RequestBounded(s, tid, call, step.now, name, a, limit); }
      else if call.Head? { HeadBounded(s, tid, call.job, name, a, limit); }
      else if call.PullBegin? || call.PushBegin? { BeginBounded(s, tid, call, step.now, step.rows, name, a, limit); }
      else if call.PullQuery? || call.PushQuery? { QueryBounded(s, tid, call, step.now, step.rows, name, a, limit); }
      else { DeadLetterBounded(s, tid, call, step.now, step.rows, name, a, limit); }
    }
  }

  lemma {:induction false} BoundedThrough(s: Sys, steps: seq<Step>, name: string, a: AckId, limit: int)
    requires SysOk(s) && PolicyKept(s, steps, name, limit) && Bounded(s, name, a, limit) && limit > 0
    ensures Bounded(Exec(s, steps), name, a, limit)
    decreases |steps|
  {
    if steps != [] {
      NextOk(s, steps[0]);
      NextBounded(s, steps[0], name, a, limit);
      BoundedThrough(Next(s, steps[0]), steps[1..], name, a, limit);
    }
  }

  /** While the policy is kept and no pull in flight holds one that does not cap, every message published from
      now on has fewer than `limit` stored attempts. */
  lemma DeliveryBound(s: Sys, steps: seq<Step>, name: string, a: AckId, limit: int)
    requires SysOk(s) && PolicyKept(s, steps, name, limit) && NoStalePull(s, name, limit) && a >= s.db.nextAck
    ensures Below(Exec(s, steps).db, name, a, limit)
  {
    assert PolicyOk(s.db.subs[name]) && limit > 0;
    forall tid | tid in s.calls ensures CallBounded(s.calls[tid], name, a, limit) { assert CallOk(s.db, s.calls[tid]); }
    BoundedThrough(s, steps, name, a, limit);
  }
}
