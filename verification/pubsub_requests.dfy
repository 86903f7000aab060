/** What a subscription request asks for is what its messages get: which ones arrive, how long a pull leases them,
    and when they are dead-lettered. */
module PubSubRequests {
  import opened Basics
  import opened PubSubFilter
  import opened PubSubModel
  import opened PubSubPull
  import opened PubSubRuns

  // ---------- leases ----------

  lemma LeaseEndIs(policy: Subscription, now: Instant)
    requires 0 <= policy.ackDeadlineSeconds * SECOND < TWO63
    ensures LeaseEnd(policy, now) == now + policy.ackDeadlineSeconds * SECOND
  {
  }

  /** A message that a pull returns is the row it selected, with one more attempt and a lease of as many seconds as
      the subscription asks for, and it is available again exactly when those seconds have passed. */
  lemma LeaseLasts(db: Db, name: string, n: int, now: Instant, rows: seq<Row>, k: nat, later: Instant)
    requires DbOk(db) && name in db.subs && n < TWO63 && Selected(db, name, now, FetchWindow(PullLimit(n)), rows)
    requires db.subs[name].ackDeadlineSeconds * SECOND < TWO63 && k < |Pull(db, name, n, now, rows).leased|
    ensures var out := Pull(db, name, n, now, rows);
            var r, end := out.leased[k], now + db.subs[name].ackDeadlineSeconds * SECOND;
            && r.msg.ackDeadline == Some(end)
            && r.ack in db.msgs && r.msg == db.msgs[r.ack].(delivered := true, ackDeadline := Some(end), attempts := db.msgs[r.ack].attempts + 1)
            && (r.ack in AvailableSet(out.db, name, later) <==> later > end)
  {
    var policy := db.subs[name];
    var deadline := LeaseEnd(policy, now);
    LeaseEndIs(policy, now);
    ReturnedIsStored(db, name, policy, deadline, now, rows, PullLimit(n), k);
    ReturnedIsLeased(db, name, policy, deadline, now, rows, PullLimit(n), k);
  }

  predicate LeaseOf(r: Row, row: Row, deadline: Instant) {
    r.ack == row.ack && r.msg == row.msg.(delivered := true, ackDeadline := Some(deadline), attempts := row.msg.attempts + 1)
  }

  ghost predicate LeasesOne(r: Row, rows: seq<Row>, deadline: Instant) {
    exists i :: 0 <= i < |rows| && LeaseOf(r, rows[i], deadline)
  }

  lemma LeasesLater(r: Row, rows: seq<Row>, deadline: Instant)
    requires rows != [] && LeasesOne(r, rows[1..], deadline)
    ensures LeasesOne(r, rows, deadline)
  {
    var i :| 0 <= i < |rows[1..]| && LeaseOf(r, rows[1..][i], deadline);
    assert rows[i + 1] == rows[1..][i];
  }

  lemma {:induction false} ReturnedIsLeased(db: Db, name: string, policy: Subscription, deadline: Instant, now: Instant, rows: seq<Row>, room: int, k: nat)
    requires k < |WorkRows(db, name, policy, deadline, now, rows, room).leased|
    ensures LeasesOne(WorkRows(db, name, policy, deadline, now, rows, room).leased[k], rows, deadline)
    decreases |rows|
  {
    var db1, lease := Turn(db, name, policy, deadline, now, rows[0]).value, TurnLease(policy, deadline, rows[0]);
    if k < |lease| {
      assert LeaseOf(lease[k], rows[0], deadline);
    } else {
      ReturnedIsLeased(db1, name, policy, deadline, now, rows[1..], room - |lease|, k - |lease|);
      LeasesLater(WorkRows(db1, name, policy, deadline, now, rows[1..], room - |lease|).leased[k - |lease|], rows, deadline);
    }
  }

  /** A pull of n returns n messages, or takes min(4n, available) off the backlog by dead-lettering. */
  lemma PullLooksFourfold(db: Db, after: Db, name: string, n: int, now: Instant, rows: seq<Row>)
    requires Drainable(db, name) && 0 < n && 4 * n < TWO63 && GoodPull(db, after, name, n, now, rows)
    ensures var k := |AvailableSet(db, name, now)|;
            |Pull(db, name, n, now, rows).leased| == n || |AvailableSet(after, name, now)| == k - Min(4 * n, k)
  {
    var policy := db.subs[name];
    WorkedAllOrFull(db, name, policy, LeaseEnd(policy, now), now, rows, n);
    if Worked(policy, rows, n) == |rows| {
      PullMeaning(db, name, n, now, rows);
      assert rows[..|rows|] == rows;
      AllSelected(db, name, now, 4 * n, rows);
    }
  }

  lemma WorkedAllOrFull(db: Db, name: string, policy: Subscription, deadline: Instant, now: Instant, rows: seq<Row>, n: nat)
    requires DbOk(db) && Read(db, rows) && !WorkRows(db, name, policy, deadline, now, rows, n).failed
    ensures Worked(policy, rows, n) == |rows| || |WorkRows(db, name, policy, deadline, now, rows, n).leased| == n
  {
    LoopMeaning(db, name, policy, deadline, now, rows, n);
  }

  lemma AllSelected(db: Db, name: string, now: Instant, window: int, rows: seq<Row>)
    requires Selected(db, name, now, window, rows)
    ensures |rows| == Min(window, |AvailableSet(db, name, now)|)
    ensures |AvailableSet(db, name, now) - Acks(rows)| == |AvailableSet(db, name, now)| - |rows|
  {
    var available := AvailableSet(db, name, now);
    AcksCount(rows);
    assert Acks(rows) <= available;
    SubsetCount(Acks(rows), available);
    WithoutAcks(available, rows);
    if |rows| < window {
      assert available <= Acks(rows);
      SubsetCount(available, Acks(rows));
    }
  }

  /** Asking for no message or fewer is asking for one. */
  lemma PullAtLeastOne(db: Db, name: string, n: int, now: Instant, rows: seq<Row>)
    requires name in db.subs && n <= 0
    ensures Pull(db, name, n, now, rows) == Pull(db, name, 1, now, rows)
  {
  }

  // ---------- a subscription stays as it was asked for ----------

  /** The operation rewrites or removes the row of the subscription. */
  predicate Rewrites(op: Op, name: string) {
    (op.UpdateSubscriptionOp? || op.DeleteSubscriptionOp?) && op.name == name
  }

  lemma {:induction false} LoopKeepsSubs(db: Db, name: string, policy: Subscription, deadline: Instant, now: Instant, rows: seq<Row>, room: int)
    ensures var after := WorkRows(db, name, policy, deadline, now, rows, room).db; after.subs == db.subs && after.lang == db.lang
    decreases |rows|
  {
    if rows != [] && room > 0 {
      var turn := Turn(db, name, policy, deadline, now, rows[0]);
      if turn.Ok? { LoopKeepsSubs(turn.value, name, policy, deadline, now, rows[1..], room - |TurnLease(policy, deadline, rows[0])|); }
    }
  }

  lemma RowStays(db: Db, op: Op, name: string)
    requires name in db.subs && !Rewrites(op, name)
    ensures var after := Apply(db, op); name in after.subs && after.subs[name] == db.subs[name] && after.lang == db.lang
  {
    if op.PullOp? && op.name in db.subs {
      var policy := db.subs[op.name];
      LoopKeepsSubs(db, op.name, policy, LeaseEnd(policy, op.now), op.now, op.rows, PullLimit(op.n));
    }
  }

  lemma {:induction false} RowStaysThrough(dbs: seq<Db>, ops: seq<Op>, i: nat, j: nat, name: string)
    requires IsRun(dbs, ops) && i <= j <= |ops| && name in dbs[i].subs
    requires forall m :: i <= m < j ==> !Rewrites(ops[m], name)
    ensures name in dbs[j].subs && dbs[j].subs[name] == dbs[i].subs[name] && dbs[j].lang == dbs[i].lang
  {
    if i < j {
      RowStaysThrough(dbs, ops, i, j - 1, name);
      RowStays(dbs[j - 1], ops[j - 1], name);
    }
  }

  // ---------- creating and updating ----------

  /** The dead-letter policy that is asked for can be had: none, or an existing topic with a limit of 5 to 100; a
      limit of 0 stands for 5. */
  predicate PolicyAllowed(db: Db, topic: string, attempts: int) {
    topic == "" || (topic in db.topics && (attempts == 0 || 5 <= attempts <= 100))
  }

  predicate FilterAllowed(db: Db, filter: string) {
    filter == "" || db.lang.parses(filter)
  }

  /** The subscription has the dead-letter policy asked for. */
  predicate HasPolicy(sub: Subscription, topic: string, attempts: int) {
    sub.deadLetterTopic == topic && sub.maxDeliveryAttempts == if topic == "" then 0 else if attempts == 0 then 5 else attempts
  }

  predicate HasSeconds(sub: Subscription, seconds: int) {
    sub.ackDeadlineSeconds == if seconds > 0 then seconds else 10
  }

  /** A creation is accepted exactly when its texts are there, its filter parses, its dead-letter policy can be had
      and its topic exists; a new name then has the row asked for, an old one keeps its own. */
  lemma CreateMeaning(db: Db, req: NewSubscription, other: string)
    ensures var done := CreateSubscription(db, req);
            && (done.Ok? <==> && req.name != "" && req.topic != "" && req.projectId != "" && req.topic in db.topics
                              && FilterAllowed(db, req.filter) && PolicyAllowed(db, req.deadLetterTopic, req.maxDeliveryAttempts))
            && (done.Ok? ==>
                  && done.value.msgs == db.msgs && done.value.topics == db.topics && done.value.subs.Keys == db.subs.Keys + {req.name}
                  && (other in db.subs ==> done.value.subs[other] == db.subs[other])
                  && (req.name !in db.subs ==>
                        var sub := done.value.subs[req.name];
                        && sub.topic == req.topic && sub.projectId == req.projectId && sub.filter == req.filter
                        && HasSeconds(sub, req.ackDeadlineSeconds) && HasPolicy(sub, req.deadLetterTopic, req.maxDeliveryAttempts)))
  {
  }

  /** An update is accepted exactly when the subscription is there and what it asks for can be had; it changes what
      it asks for and nothing else. */
  lemma UpdateMeaning(db: Db, name: string, patch: Patch, other: string)
    ensures var done := UpdateSubscription(db, name, patch);
            && (done.Ok? <==> && name in db.subs && (patch.filter.Some? ==> FilterAllowed(db, patch.filter.value))
                              && (patch.deadLetter.Some? ==> PolicyAllowed(db, patch.deadLetter.value.0, patch.deadLetter.value.1)))
            && (done.Ok? ==>
                  && done.value.msgs == db.msgs && done.value.topics == db.topics && done.value.subs.Keys == db.subs.Keys
                  && (other in db.subs && other != name ==> done.value.subs[other] == db.subs[other])
                  && var sub, was := done.value.subs[name], db.subs[name];
                  && sub.topic == was.topic && sub.projectId == was.projectId
                  && sub.filter == (if patch.filter.Some? then patch.filter.value else was.filter)
                  && (if patch.ackDeadline.Some? then HasSeconds(sub, patch.ackDeadline.value) else sub.ackDeadlineSeconds == was.ackDeadlineSeconds)
                  && (if patch.deadLetter.Some? then HasPolicy(sub, patch.deadLetter.value.0, patch.deadLetter.value.1)
                      else sub.deadLetterTopic == was.deadLetterTopic && sub.maxDeliveryAttempts == was.maxDeliveryAttempts))
  {
  }

  // ---------- over runs ----------

  /** The operation is an accepted creation of this subscription. */
  predicate Creates(db: Db, op: Op, name: string) {
    op.CreateSubscriptionOp? && op.req.name == name && name !in db.subs && CreateSubscription(db, op.req).Ok?
  }

  /** The operation is an accepted request for leases of this many seconds. */
  predicate AsksSeconds(db: Db, op: Op, name: string, seconds: int) {
    || (Creates(db, op, name) && op.req.ackDeadlineSeconds == seconds)
    || (op.UpdateSubscriptionOp? && op.name == name && op.patch.ackDeadline == Some(seconds) && UpdateSubscription(db, name, op.patch).Ok?)
  }

  /** Until the subscription is updated or deleted, every pull leases for the number of seconds that was asked for,
      or 10 if that was not positive. */
  lemma LeaseAsRequested(dbs: seq<Db>, ops: seq<Op>, i: nat, j: nat, seconds: int, k: nat)
    requires IsRun(dbs, ops) && DbOk(dbs[0]) && i < j < |ops| && ops[j].PullOp? && seconds * SECOND < TWO63
    requires AsksSeconds(dbs[i], ops[i], ops[j].name, seconds) && forall m :: i < m < j ==> !Rewrites(ops[m], ops[j].name)
    requires k < |Returned(dbs[j], ops[j])|
    ensures Returned(dbs[j], ops[j])[k].msg.ackDeadline == Some(ops[j].now + (if seconds > 0 then seconds else 10) * SECOND)
  {
    var name := ops[j].name;
    SecondsStay(dbs, ops, i, j, name, seconds);
    LeaseLasts(dbs[j], name, ops[j].n, ops[j].now, ops[j].rows, k, ops[j].now);
  }

  lemma SecondsStay(dbs: seq<Db>, ops: seq<Op>, i: nat, j: nat, name: string, seconds: int)
    requires IsRun(dbs, ops) && DbOk(dbs[0]) && i < j < |ops| && AsksSeconds(dbs[i], ops[i], name, seconds)
    requires forall m :: i < m < j ==> !Rewrites(ops[m], name)
    ensures DbOk(dbs[j]) && name in dbs[j].subs && HasSeconds(dbs[j].subs[name], seconds)
  {
    if ops[i].CreateSubscriptionOp? {
      CreateMeaning(dbs[i], ops[i].req, name);
    } else {
      UpdateMeaning(dbs[i], name, ops[i].patch, name);
    }
    RowStaysThrough(dbs, ops, i + 1, j, name);
    RunExtends(dbs, ops, 0, j);
  }

  /** Publishing gives each subscription of the topic whose filter passes the message one copy, and that can be
      pulled at once. */
  lemma CopyArrives(db: Db, topic: string, data: Bytes, attributes: Attributes, now: Instant, name: string, later: Instant)
    requires DbOk(db) && topic in db.topics && name in db.subs
    ensures var after := Publish(db, topic, data, attributes, now).value;
            && |NewCopies(db, after, name)| == (if db.subs[name].topic == topic && db.lang.matches(db.subs[name].filter, attributes) then 1 else 0)
            && forall a :: a in NewCopies(db, after, name) ==>
                 a in AvailableSet(after, name, later) && after.msgs[a].data == data && after.msgs[a].attributes == attributes
  {
    PublishAddsOneCopyEach(db, topic, data, attributes, now);
  }

  /** From its creation until it is updated or deleted, a subscription receives one copy of exactly the messages of
      the requested topic that pass the requested filter; every copy can be pulled at once. */
  lemma ReceivesAsRequested(dbs: seq<Db>, ops: seq<Op>, i: nat, j: nat, name: string, a: AckId, later: Instant)
    requires IsRun(dbs, ops) && DbOk(dbs[0]) && i < j < |ops| && Creates(dbs[i], ops[i], name)
    requires forall m :: i < m < j ==> !Rewrites(ops[m], name)
    requires ops[j].PublishOp? && ops[j].topic in dbs[j].topics
    ensures |NewCopies(dbs[j], dbs[j + 1], name)| ==
              if ops[j].topic == ops[i].req.topic && dbs[i].lang.matches(ops[i].req.filter, ops[j].attributes) then 1 else 0
    ensures a in NewCopies(dbs[j], dbs[j + 1], name) ==>
              && a in AvailableSet(dbs[j + 1], name, later)
              && dbs[j + 1].msgs[a].data == ops[j].data && dbs[j + 1].msgs[a].attributes == ops[j].attributes
  {
    RequestStays(dbs, ops, i, j, name);
    CopyArrives(dbs[j], ops[j].topic, ops[j].data, ops[j].attributes, ops[j].now, name, later);
  }

  lemma RequestStays(dbs: seq<Db>, ops: seq<Op>, i: nat, j: nat, name: string)
    requires IsRun(dbs, ops) && DbOk(dbs[0]) && i < j < |ops| && Creates(dbs[i], ops[i], name)
    requires forall m :: i < m < j ==> !Rewrites(ops[m], name)
    ensures var req := ops[i].req;
            && DbOk(dbs[j]) && dbs[j].lang == dbs[i].lang && name in dbs[j].subs
            && dbs[j].subs[name].topic == req.topic && dbs[j].subs[name].filter == req.filter
            && HasPolicy(dbs[j].subs[name], req.deadLetterTopic, req.maxDeliveryAttempts)
  {
    CreateMeaning(dbs[i], ops[i].req, name);
    RowStaysThrough(dbs, ops, i + 1, j, name);
    RunExtends(dbs, ops, 0, j);
    LangStays(dbs, ops, i);
  }

  lemma LangStays(dbs: seq<Db>, ops: seq<Op>, i: nat)
    requires IsRun(dbs, ops) && DbOk(dbs[0]) && i < |ops|
    ensures dbs[i + 1].lang == dbs[i].lang
  {
    RunExtends(dbs, ops, 0, i);
    StepExtends(dbs[i], ops[i]);
  }

  /** What becomes of the message at one failed delivery, with the policy that was asked for: it stays with one more
      attempt until that reaches the limit; then it goes, and each subscription of the dead-letter topic whose filter
      passes it receives one copy. */
  ghost predicate CountedOrMoved(db: Db, after: Db, name: string, a: AckId, topic: string, limit: int)
    requires a in db.msgs
  {
    var m := db.msgs[a];
    if topic != "" && m.attempts + 1 >= limit then
      && a !in after.msgs
      && forall n ::
           |NewCopies(db, after, n)| ==
             if n in db.subs && db.subs[n].topic == topic && db.lang.matches(db.subs[n].filter, m.attributes[SOURCE := name]) then 1 else 0
    else a in after.msgs && after.msgs[a] == m.(attempts := m.attempts + 1)
  }

  lemma DeadLetterCounts(db: Db, name: string, policy: Subscription, row: Row, now: Instant)
    requires DbOk(db) && row.ack in db.msgs && policy.deadLetterTopic in db.topics
    ensures var after := DeadLetter(db, name, policy, row, now).value;
            && row.ack !in after.msgs
            && forall n :: |NewCopies(db, after, n)| ==
                 if n in db.subs && db.subs[n].topic == policy.deadLetterTopic && db.lang.matches(db.subs[n].filter, row.msg.attributes[SOURCE := name]) then 1 else 0
  {
    var published := Publish(db, policy.deadLetterTopic, row.msg.data, row.msg.attributes[SOURCE := name], now).value;
    PublishAddsOneCopyEach(db, policy.deadLetterTopic, row.msg.data, row.msg.attributes[SOURCE := name], now);
    forall n ensures NewCopies(db, DeleteRow(published, row.ack), n) == NewCopies(db, published, n) { DeletedIsOld(db, published, row.ack, n); }
  }

  lemma DeletedIsOld(db: Db, published: Db, a: AckId, n: string)
    requires a in db.msgs
    ensures NewCopies(db, DeleteRow(published, a), n) == NewCopies(db, published, n)
  {
  }

  /** A recorded push failure counts towards the limit that was asked for and dead-letters to the topic that was asked
      for, until the subscription is updated or deleted. */
  lemma DeadLettersAsRequested(dbs: seq<Db>, ops: seq<Op>, i: nat, j: nat, name: string)
    requires IsRun(dbs, ops) && DbOk(dbs[0]) && i < j < |ops| && Creates(dbs[i], ops[i], name)
    requires forall m :: i < m < j ==> !Rewrites(ops[m], name)
    requires ops[j].PushFailureOp? && ops[j].name == name && ops[j].ack in dbs[j].msgs && dbs[j].msgs[ops[j].ack].subscription == name
    requires ops[i].req.deadLetterTopic == "" || ops[i].req.deadLetterTopic in dbs[j].topics
    ensures var req := ops[i].req;
            CountedOrMoved(dbs[j], dbs[j + 1], name, ops[j].ack, req.deadLetterTopic, if req.maxDeliveryAttempts == 0 then 5 else req.maxDeliveryAttempts)
  {
    var db, a, req := dbs[j], ops[j].ack, ops[i].req;
    RequestStays(dbs, ops, i, j, name);
    PushCounts(db, name, a, ops[j].now);
  }

  lemma PushCounts(db: Db, name: string, a: AckId, now: Instant)
    requires DbOk(db) && name in db.subs && a in db.msgs && db.msgs[a].subscription == name
    requires db.subs[name].deadLetterTopic == "" || db.subs[name].deadLetterTopic in db.topics
    ensures CountedOrMoved(db, PushFailure(db, name, a, now).db, name, a, db.subs[name].deadLetterTopic, db.subs[name].maxDeliveryAttempts)
  {
    var policy := db.subs[name];
    assert PolicyOk(policy);
    if DeadLetters(policy, db.msgs[a]) { DeadLetterCounts(db, name, policy, Row(a, db.msgs[a]), now); }
  }

  // ---------- topics ----------

  /** A topic is there exactly from its creation to its deletion. */
  lemma TopicMeaning(db: Db, op: Op, topic: string)
    ensures topic in Apply(db, op).topics <==>
              || (op.CreateTopicOp? && op.name == topic && op.name != "" && op.project != "")
              || (topic in db.topics && !(op.DeleteTopicOp? && op.name == topic))
  {
    if op.PullOp? && op.name in db.subs {
      var policy := db.subs[op.name];
      LoopKeepsTopics(db, op.name, policy, LeaseEnd(policy, op.now), op.now, op.rows, PullLimit(op.n));
    }
  }

  /** Publishing is refused exactly when the topic is not there. */
  lemma PublishNeedsTopic(db: Db, topic: string, data: Bytes, attributes: Attributes, now: Instant)
    ensures Publish(db, topic, data, attributes, now).Ok? <==> topic in db.topics
  {
  }

  lemma {:induction false} LoopKeepsTopics(db: Db, name: string, policy: Subscription, deadline: Instant, now: Instant, rows: seq<Row>, room: int)
    ensures WorkRows(db, name, policy, deadline, now, rows, room).db.topics == db.topics
    decreases |rows|
  {
    if rows != [] && room > 0 {
      var turn := Turn(db, name, policy, deadline, now, rows[0]);
      if turn.Ok? { LoopKeepsTopics(turn.value, name, policy, deadline, now, rows[1..], room - |TurnLease(policy, deadline, rows[0])|); }
    }
  }
}
