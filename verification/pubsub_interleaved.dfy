/** The same operations one SQL statement at a time, with any number of calls in flight at once. A
    call is a thread that remembers what it has read; between two of its statements any other call
    may run, and a crash may end every call at any point. */
module PubSubInterleaved {
  import opened Basics
  import opened PubSubFilter
  import opened PubSubModel
  import opened PubSubPull
  import opened PubSubRuns

  /** Pull leases the rows it keeps; a failed push only counts the attempt. */
  datatype Mode = Leasing(deadline: Instant) | Counting

  /** A call working through rows it has read, under the subscription row it read before them. */
  datatype Job = Job(mode: Mode, name: string, policy: Subscription, rows: seq<Row>, room: int)

  /** The next statement of a call. */
  datatype Call =
    | PullBegin(name: string, n: int)
    | PullQuery(name: string, n: int, policy: Subscription)
    | PushBegin(name: string, ack: AckId)
    | PushQuery(name: string, ack: AckId, policy: Subscription)
    | Head(job: Job)
    | DeadLetterList(job: Job)
    | DeadLetterCommit(job: Job, listing: seq<(string, string)>)
    | DeadLetterDelete(job: Job)
    | PublishBegin(topic: string, data: Bytes, attributes: Attributes)
    | PublishList(topic: string, data: Bytes, attributes: Attributes)
    | PublishCommit(topic: string, data: Bytes, attributes: Attributes, listing: seq<(string, string)>)
    | SeekBegin(name: string, t: Instant)
    | SeekRun(name: string, t: Instant)
    | CreateBegin(req: NewSubscription)
    | CreateCheck(req: NewSubscription, seen: set<string>)
    | CreateInsert(name: string, row: Subscription)
    | UpdateBegin(name: string, patch: Patch)
    | UpdateCheck(name: string, patch: Patch, row: Subscription)
    | UpdateWrite(name: string, row: Subscription)
  {
    /** A call that has not run a statement yet. */
    predicate Fresh() {
      PullBegin? || PushBegin? || PublishBegin? || SeekBegin? || CreateBegin? || UpdateBegin?
    }

    /** A statement of a Pull or of a recorded push failure. */
    predicate Delivers() {
      PullBegin? || PullQuery? || PushBegin? || PushQuery? || HasJob()
    }

    /** A statement that creates or changes a subscription. */
    predicate Configures() {
      CreateBegin? || CreateCheck? || CreateInsert? || UpdateBegin? || UpdateCheck? || UpdateWrite?
    }

    predicate HasJob() {
      Head? || DeadLetterList? || DeadLetterCommit? || DeadLetterDelete?
    }
  }

  /** What a publish says. */
  datatype Publication = Publication(topic: string, data: Bytes, attributes: Attributes)

  datatype Sys = Sys(db: Db, calls: map<nat, Call>)

  /** Ack ids are handed out by the store, so a caller can name only one that has been drawn; counts are 64-bit. */
  predicate Startable(db: Db, call: Call) {
    && call.Fresh()
    && (call.PushBegin? ==> call.ack < db.nextAck)
    && (call.PullBegin? ==> call.n < TWO63)
  }

  datatype Step =
    | Start(tid: nat, call: Call)
    | Statement(tid: nat, now: Instant, rows: seq<Row>)
    | AcknowledgeStep(name: string, ids: seq<AckId>)
    | ModifyAckDeadlineStep(name: string, ids: seq<AckId>, seconds: int, now: Instant)
    | DeleteSubscriptionStep(name: string)
    | CreateTopicStep(name: string, project: string)
    | DeleteTopicStep(name: string)
    | Crash

  // ---------- one statement ----------

  function Finish(s: Sys, tid: nat): Sys {
    s.(calls := s.calls - {tid})
  }

  function Goto(s: Sys, tid: nat, call: Call): Sys {
    s.(calls := s.calls[tid := call])
  }

  /** What a dead-letter publish of this row says. */
  function DeadLetterOf(job: Job): Publication
    requires job.rows != []
  {
    var m := job.rows[0].msg;
    Publication(job.policy.deadLetterTopic, m.data, m.attributes[SOURCE := job.name])
  }

  function CommitPublication(s: Sys, p: Publication, now: Instant, listing: seq<(string, string)>): Sys {
    s.(db := Commit(s.db, p.topic, p.data, p.attributes, now, Targets(s.db.lang, listing, p.attributes)))
  }

  function KeepRow(db: Db, job: Job): Db
    requires job.rows != []
  {
    var row := job.rows[0];
    match job.mode
    case Leasing(deadline) => SetLease(db, row.ack, deadline, row.msg.attempts + 1)
    case Counting => SetAttempts(db, row.ack, row.msg.attempts + 1)
  }

  /** The statement at the top of the loop over rows: either the first of a dead-letter publish or the UPDATE. */
  function RunHead(s: Sys, tid: nat, job: Job): Sys {
    if job.rows == [] || job.room <= 0 then Finish(s, tid)
    else if DeadLetters(job.policy, job.rows[0].msg) then
      if job.policy.deadLetterTopic in s.db.topics then Goto(s, tid, DeadLetterList(job)) else Finish(s, tid)
    else Goto(s.(db := KeepRow(s.db, job)), tid, Head(job.(rows := job.rows[1..], room := job.room - 1)))
  }

  ghost function RunDelivery(s: Sys, tid: nat, call: Call, now: Instant, rows: seq<Row>): Sys
    requires call.Delivers()
  {
    match call
    case PullBegin(name, n) => if name in s.db.subs then Goto(s, tid, PullQuery(name, n, s.db.subs[name])) else Finish(s, tid)
    case PullQuery(name, n, policy) =>
      if n < TWO63 && Selected(s.db, name, now, FetchWindow(PullLimit(n)), rows)
      then Goto(s, tid, Head(Job(Leasing(LeaseEnd(policy, now)), name, policy, rows, PullLimit(n))))
      else s
    case PushBegin(name, ack) => if name in s.db.subs then Goto(s, tid, PushQuery(name, ack, s.db.subs[name])) else Finish(s, tid)
    case PushQuery(name, ack, policy) =>
      if ack in s.db.msgs && s.db.msgs[ack].subscription == name
      then Goto(s, tid, Head(Job(Counting, name, policy, [Row(ack, s.db.msgs[ack])], 1)))
      else Finish(s, tid)
    case Head(job) => RunHead(s, tid, job)
    case DeadLetterList(job) => Goto(s, tid, DeadLetterCommit(job, Listing(s.db, job.policy.deadLetterTopic)))
    case DeadLetterCommit(job, listing) =>
      if job.rows == [] then s else Goto(CommitPublication(s, DeadLetterOf(job), now, listing), tid, DeadLetterDelete(job))
    case DeadLetterDelete(job) =>
      if job.rows == [] then s
      else Goto(s.(db := DeleteRow(s.db, job.rows[0].ack)), tid, Head(job.(rows := job.rows[1..])))
  }

  function RunConfiguration(s: Sys, tid: nat, call: Call): Sys
    requires call.Configures()
  {
    match call
    case CreateBegin(req) => Goto(s, tid, CreateCheck(req, s.db.topics))
    case CreateCheck(req, seen) =>
      var row := CheckedRow(s.db.lang, seen, s.db.topics, req);
      if row.Ok? then Goto(s, tid, CreateInsert(req.name, row.value)) else Finish(s, tid)
    case CreateInsert(name, row) => Finish(s.(db := InsertSubscription(s.db, name, row)), tid)
    case UpdateBegin(name, patch) => if name in s.db.subs then Goto(s, tid, UpdateCheck(name, patch, s.db.subs[name])) else Finish(s, tid)
    case UpdateCheck(name, patch, row) =>
      var r := Patched(s.db.lang, s.db.topics, row, patch);
      if r.Ok? then Goto(s, tid, UpdateWrite(name, r.value)) else Finish(s, tid)
    case UpdateWrite(name, row) => Finish(s.(db := WriteSubscription(s.db, name, row)), tid)
  }

  function RunRequest(s: Sys, tid: nat, call: Call, now: Instant): Sys
    requires !call.Delivers() && !call.Configures()
  {
    match call
    case PublishBegin(topic, data, attributes) =>
      if topic in s.db.topics then Goto(s, tid, PublishList(topic, data, attributes)) else Finish(s, tid)
    case PublishList(topic, data, attributes) => Goto(s, tid, PublishCommit(topic, data, attributes, Listing(s.db, topic)))
    case PublishCommit(topic, data, attributes, listing) =>
      Finish(CommitPublication(s, Publication(topic, data, attributes), now, listing), tid)
    case SeekBegin(name, t) => if name in s.db.subs then Goto(s, tid, SeekRun(name, t)) else Finish(s, tid)
    case SeekRun(name, t) => Finish(s.(db := SeekTx(s.db, name, t)), tid)
  }

  ghost function RunCall(s: Sys, tid: nat, call: Call, now: Instant, rows: seq<Row>): Sys {
    if call.Delivers() then RunDelivery(s, tid, call, now, rows)
    else if call.Configures() then RunConfiguration(s, tid, call)
    else RunRequest(s, tid, call, now)
  }

  /** Any step; one that cannot be taken leaves the system as it is. */
  ghost function Next(s: Sys, step: Step): Sys {
    match step
    case Start(tid, call) => if Startable(s.db, call) && tid !in s.calls then Goto(s, tid, call) else s
    case Statement(tid, now, rows) => if tid in s.calls then RunCall(s, tid, s.calls[tid], now, rows) else s
    case AcknowledgeStep(name, ids) => s.(db := Acknowledge(s.db, name, ids))
    case ModifyAckDeadlineStep(name, ids, seconds, now) => s.(db := ModifyAckDeadline(s.db, name, ids, seconds, now))
    case DeleteSubscriptionStep(name) => s.(db := DeleteSubscription(s.db, name))
    case CreateTopicStep(name, project) => s.(db := OrSame(CreateTopic(s.db, name, project), s.db))
    case DeleteTopicStep(name) => s.(db := DeleteTopic(s.db, name))
    case Crash => s.(calls := map[])
  }

  // ---------- invariant ----------

  /** What a call has read still agrees with the rows that are left. */
  ghost predicate JobOk(db: Db, job: Job) {
    forall i :: 0 <= i < |job.rows| ==>
      && job.rows[i].msg.subscription == job.name && job.rows[i].ack < db.nextAck
      && (job.rows[i].ack in db.msgs ==> SameContent(job.rows[i].msg, db.msgs[job.rows[i].ack]))
  }

  ghost predicate CallOk(db: Db, call: Call) {
    && (call.HasJob() ==> JobOk(db, call.job))
    && (call.HasJob() && !call.Head? ==> call.job.rows != [] && call.job.policy.deadLetterTopic != "")
    && (call.PushBegin? || call.PushQuery? ==> call.ack < db.nextAck)
    && (call.PullBegin? || call.PullQuery? ==> call.n < TWO63)
    && (call.PullQuery? || call.PushQuery? ==> SubscriptionOk(db.lang, call.policy))
    && (call.CreateInsert? ==> SubscriptionOk(db.lang, call.row))
    && (call.UpdateCheck? || call.UpdateWrite? ==> SubscriptionOk(db.lang, call.row))
  }

  ghost predicate SysOk(s: Sys) {
    && DbOk(s.db)
    && forall tid :: tid in s.calls ==> CallOk(s.db, s.calls[tid])
  }

  lemma CallStaysOk(db: Db, db': Db, call: Call)
    requires CallOk(db, call) && Extends(db, db')
    ensures CallOk(db', call)
  {
  }

  /** The tables after a step, and the step's own call, are as they should be. */
  ghost predicate StepOk(s: Sys, s': Sys, tid: nat) {
    && DbOk(s'.db) && Extends(s.db, s'.db)
    && (tid in s'.calls ==> CallOk(s'.db, s'.calls[tid]))
    && (forall t :: t in s'.calls && t != tid ==> t in s.calls && s'.calls[t] == s.calls[t])
  }

  lemma HeadOk(s: Sys, tid: nat, job: Job)
    requires SysOk(s) && tid in s.calls && s.calls[tid] == Head(job)
    ensures StepOk(s, RunHead(s, tid, job), tid)
  {
    var s' := RunHead(s, tid, job);
    if job.rows != [] && job.room > 0 && !DeadLetters(job.policy, job.rows[0].msg) {
      var next := job.(rows := job.rows[1..], room := job.room - 1);
      assert JobOk(s'.db, next) by {
        forall i | 0 <= i < |next.rows| ensures next.rows[i] == job.rows[i + 1] {}
      }
    }
  }

  lemma CommitOk(s: Sys, p: Publication, now: Instant, listing: seq<(string, string)>)
    requires DbOk(s.db)
    ensures var s' := CommitPublication(s, p, now, listing);
            && DbOk(s'.db) && Extends(s.db, s'.db) && s'.db.subs == s.db.subs
            && (forall a :: a in s.db.msgs ==> a in s'.db.msgs && s'.db.msgs[a] == s.db.msgs[a])
            && (forall a :: a in s'.db.msgs && a !in s.db.msgs ==> s'.db.msgs[a].attempts == 0)
  {
    CommitAddsCopies(s.db, p.topic, p.data, p.attributes, now, Targets(s.db.lang, listing, p.attributes));
  }

  lemma DeadLetterCallOk(s: Sys, tid: nat, call: Call, now: Instant, rows: seq<Row>)
    requires SysOk(s) && tid in s.calls && s.calls[tid] == call && (call.DeadLetterCommit? || call.DeadLetterDelete?)
    ensures StepOk(s, RunDelivery(s, tid, call, now, rows), tid)
  {
    var job := call.job;
    if call.DeadLetterCommit? {
      CommitOk(s, DeadLetterOf(job), now, call.listing);
    } else {
      var next := job.(rows := job.rows[1..]);
      var s' := RunDelivery(s, tid, call, now, rows);
      assert JobOk(s'.db, next) by {
        forall i | 0 <= i < |next.rows| ensures next.rows[i] == job.rows[i + 1] {}
      }
    }
  }

  lemma DeliveryOk(s: Sys, tid: nat, call: Call, now: Instant, rows: seq<Row>)
    requires SysOk(s) && tid in s.calls && s.calls[tid] == call && call.Delivers()
    ensures StepOk(s, RunDelivery(s, tid, call, now, rows), tid)
  {
    if call.Head? { HeadOk(s, tid, call.job); }
    else if call.DeadLetterCommit? || call.DeadLetterDelete? { DeadLetterCallOk(s, tid, call, now, rows); }
    else { assert RunDelivery(s, tid, call, now, rows).db == s.db; }
  }

  lemma ConfigurationOk(s: Sys, tid: nat, call: Call)
    requires SysOk(s) && tid in s.calls && s.calls[tid] == call && call.Configures()
    ensures StepOk(s, RunConfiguration(s, tid, call), tid)
  {
    assert call.UpdateBegin? && call.name in s.db.subs ==> SubscriptionOk(s.db.lang, s.db.subs[call.name]);
  }

  lemma RequestOk(s: Sys, tid: nat, call: Call, now: Instant)
    requires SysOk(s) && tid in s.calls && s.calls[tid] == call && !call.Delivers() && !call.Configures()
    ensures StepOk(s, RunRequest(s, tid, call, now), tid)
  {
    if call.PublishCommit? { CommitOk(s, Publication(call.topic, call.data, call.attributes), now, call.listing); }
  }

  lemma StatementOk(s: Sys, tid: nat, now: Instant, rows: seq<Row>)
    requires SysOk(s) && tid in s.calls
    ensures StepOk(s, RunCall(s, tid, s.calls[tid], now, rows), tid)
  {
    var call := s.calls[tid];
    if call.Delivers() { DeliveryOk(s, tid, call, now, rows); }
    else if call.Configures() { ConfigurationOk(s, tid, call); }
    else { RequestOk(s, tid, call, now); }
  }

  /** Every step, however the calls interleave and wherever a crash falls, keeps the invariant. */
  lemma NextOk(s: Sys, step: Step)
    requires SysOk(s)
    ensures SysOk(Next(s, step)) && Extends(s.db, Next(s, step).db)
  {
    var s' := Next(s, step);
    if step.Statement? && step.tid in s.calls { StatementOk(s, step.tid, step.now, step.rows); }
    forall t | t in s'.calls ensures CallOk(s'.db, s'.calls[t]) {
      if t in s.calls && s'.calls[t] == s.calls[t] {
        CallStaysOk(s.db, s'.db, s.calls[t]);
      }
    }
  }
}
