/** Whole runs of the store's operations, each taken as one step: what every operation keeps, and
    what one Pull promises about every later one. */
module PubSubRuns {
  import opened Basics
  import opened PubSubFilter
  import opened PubSubModel
  import opened PubSubPull

  datatype Op =
    | CreateTopicOp(name: string, project: string)
    | DeleteTopicOp(name: string)
    | CreateSubscriptionOp(req: NewSubscription)
    | UpdateSubscriptionOp(name: string, patch: Patch)
    | DeleteSubscriptionOp(name: string)
    | PublishOp(topic: string, data: Bytes, attributes: Attributes, now: Instant)
    | PullOp(name: string, n: int, now: Instant, rows: seq<Row>)
    | PushFailureOp(name: string, ack: AckId, now: Instant)
    | AcknowledgeOp(name: string, ids: seq<AckId>)
    | ModifyAckDeadlineOp(name: string, ids: seq<AckId>, seconds: int, now: Instant)
    | SeekOp(name: string, t: Instant)

  function OrSame(r: Result<Db, Error>, db: Db): Db {
    if r.Ok? then r.value else db
  }

  /** The state an operation leaves, whether it reports success or an error. */
  function Apply(db: Db, op: Op): Db {
    match op
    case CreateTopicOp(name, project) => OrSame(CreateTopic(db, name, project), db)
    case DeleteTopicOp(name) => DeleteTopic(db, name)
    case CreateSubscriptionOp(req) => OrSame(CreateSubscription(db, req), db)
    case UpdateSubscriptionOp(name, patch) => OrSame(UpdateSubscription(db, name, patch), db)
    case DeleteSubscriptionOp(name) => DeleteSubscription(db, name)
    case PublishOp(topic, data, attributes, now) => OrSame(Publish(db, topic, data, attributes, now), db)
    case PullOp(name, n, now, rows) => if name in db.subs then Pull(db, name, n, now, rows).db else db
    case PushFailureOp(name, ack, now) => PushFailure(db, name, ack, now).db
    case AcknowledgeOp(name, ids) => Acknowledge(db, name, ids)
    case ModifyAckDeadlineOp(name, ids, seconds, now) => ModifyAckDeadline(db, name, ids, seconds, now)
    case SeekOp(name, t) => OrSame(Seek(db, name, t), db)
  }

  /** The rows a Pull works on are the ones its SELECT could have returned. */
  ghost predicate Legal(db: Db, op: Op) {
    op.PullOp? && op.name in db.subs ==>
      op.n < TWO63 && Selected(db, op.name, op.now, FetchWindow(PullLimit(op.n)), op.rows)
  }

  /** What the caller of a Pull receives. */
  function Returned(db: Db, op: Op): seq<Row> {
    if op.PullOp? && op.name in db.subs then Pull(db, op.name, op.n, op.now, op.rows).leased else []
  }

  ghost predicate IsRun(dbs: seq<Db>, ops: seq<Op>) {
    && |dbs| == |ops| + 1
    && forall i {:trigger ops[i]} :: 0 <= i < |ops| ==> Legal(dbs[i], ops[i]) && dbs[i + 1] == Apply(dbs[i], ops[i])
  }

  // ---------- what every operation keeps ----------

  /** An ack id that has been drawn stays with its message or goes for good. */
  ghost predicate Extends(before: Db, after: Db) {
    && before.lang == after.lang && before.nextAck <= after.nextAck
    && (forall a :: a in after.msgs && a !in before.msgs ==> a >= before.nextAck)
    && (forall a :: a in after.msgs && a in before.msgs ==> SameContent(before.msgs[a], after.msgs[a]))
  }

  predicate SameContent(m: Message, m': Message) {
    && m.id == m'.id && m.subscription == m'.subscription && m.topic == m'.topic && m.data == m'.data
    && m.attributes == m'.attributes && m.publishTime == m'.publishTime
  }

  /** Only the rows in `rows` may have changed or gone; new rows may have come. */
  ghost predicate Advances(before: Db, after: Db, rows: seq<Row>) {
    && DbOk(after) && Extends(before, after) && after.subs == before.subs
    && forall a :: a in before.msgs && !HasAck(rows, a) ==> a in after.msgs && after.msgs[a] == before.msgs[a]
  }

  lemma PublishAdvances(db: Db, topic: string, data: Bytes, attributes: Attributes, now: Instant)
    requires DbOk(db)
    ensures Advances(db, OrSame(Publish(db, topic, data, attributes, now), db), [])
  {
    CommitAddsCopies(db, topic, data, attributes, now, Targets(db.lang, Listing(db, topic), attributes));
  }

  lemma DeadLetterAdvances(db: Db, name: string, policy: Subscription, row: Row, now: Instant)
    requires DbOk(db)
    ensures Advances(db, OrSame(DeadLetter(db, name, policy, row, now), db), [row])
  {
    PublishAdvances(db, policy.deadLetterTopic, row.msg.data, row.msg.attributes[SOURCE := name], now);
    assert HasAck([row], row.ack) by { assert [row][0] == row; }
    assert forall a :: !HasAck([], a);
  }

  /** One row rewritten, its message's content kept. */
  lemma RowAdvances(db: Db, after: Db, row: Row)
    requires DbOk(db) && after.msgs.Keys == db.msgs.Keys && after == db.(msgs := after.msgs)
    requires forall a :: a in db.msgs ==> SameContent(db.msgs[a], after.msgs[a]) && (a != row.ack ==> after.msgs[a] == db.msgs[a])
    ensures Advances(db, after, [row])
  {
    assert HasAck([row], row.ack) by { assert [row][0] == row; }
  }

  lemma TurnAdvances(db: Db, name: string, policy: Subscription, deadline: Instant, now: Instant, row: Row)
    requires DbOk(db)
    ensures Advances(db, OrSame(Turn(db, name, policy, deadline, now, row), db), [row])
  {
    if DeadLetters(policy, row.msg) {
      DeadLetterAdvances(db, name, policy, row, now);
    } else {
      RowAdvances(db, SetLease(db, row.ack, deadline, row.msg.attempts + 1), row);
    }
  }

  lemma AdvancesCompose(db: Db, db1: Db, db2: Db, rows: seq<Row>)
    requires DbOk(db) && rows != [] && Advances(db, db1, [rows[0]]) && Advances(db1, db2, rows[1..])
    ensures Advances(db, db2, rows)
  {
    forall a | !HasAck(rows, a) ensures !HasAck([rows[0]], a) && !HasAck(rows[1..], a) {
      assert rows[0].ack != a;
      assert forall i :: 0 <= i < |rows[1..]| ==> rows[1..][i] == rows[i + 1];
    }
  }

  lemma {:induction false} LoopAdvances(db: Db, name: string, policy: Subscription, deadline: Instant, now: Instant, rows: seq<Row>, room: int)
    requires DbOk(db)
    ensures Advances(db, WorkRows(db, name, policy, deadline, now, rows, room).db, rows)
    decreases |rows|
  {
    if rows != [] && room > 0 {
      var turn := Turn(db, name, policy, deadline, now, rows[0]);
      TurnAdvances(db, name, policy, deadline, now, rows[0]);
      if turn.Ok? {
        var room1 := room - |TurnLease(policy, deadline, rows[0])|;
        LoopAdvances(turn.value, name, policy, deadline, now, rows[1..], room1);
        AdvancesCompose(db, turn.value, WorkRows(turn.value, name, policy, deadline, now, rows[1..], room1).db, rows);
      }
    }
  }

  lemma PushAdvances(db: Db, name: string, ack: AckId, now: Instant)
    requires DbOk(db) && ack in db.msgs
    ensures Advances(db, PushFailure(db, name, ack, now).db, [Row(ack, db.msgs[ack])])
  {
    var row := Row(ack, db.msgs[ack]);
    if PushFailure(db, name, ack, now).db == db {
      RowAdvances(db, db, row);
    } else if DeadLetters(db.subs[name], row.msg) {
      DeadLetterAdvances(db, name, db.subs[name], row, now);
    } else {
      RowAdvances(db, SetAttempts(db, ack, row.msg.attempts + 1), row);
    }
  }

  /** Every operation keeps the tables consistent and never brings an ack id back. */
  lemma StepExtends(db: Db, op: Op)
    requires DbOk(db)
    ensures DbOk(Apply(db, op)) && Extends(db, Apply(db, op))
  {
    match op
    case PublishOp(topic, data, attributes, now) => PublishAdvances(db, topic, data, attributes, now);
    case PullOp(name, n, now, rows) =>
      if name in db.subs { LoopAdvances(db, name, db.subs[name], LeaseEnd(db.subs[name], now), now, rows, PullLimit(n)); }
    case PushFailureOp(name, ack, now) =>
      if ack in db.msgs { PushAdvances(db, name, ack, now); }
    case CreateTopicOp(_, _) =>
    case DeleteTopicOp(_) =>
    case CreateSubscriptionOp(req) => SubscriptionWritten(db, op);
    case UpdateSubscriptionOp(_, _) => SubscriptionWritten(db, op);
    case DeleteSubscriptionOp(_) =>
    case AcknowledgeOp(_, _) =>
    case ModifyAckDeadlineOp(_, _, _, _) =>
    case SeekOp(_, _) =>
  }

  lemma SubscriptionWritten(db: Db, op: Op)
    requires DbOk(db) && (op.CreateSubscriptionOp? || op.UpdateSubscriptionOp?)
    ensures var after := Apply(db, op); DbOk(after) && after.msgs == db.msgs && after.nextAck == db.nextAck && after.lang == db.lang
  {
    if op.CreateSubscriptionOp? {
      var row := CheckedRow(db.lang, db.topics, db.topics, op.req);
      if row.Ok? { assert SubscriptionOk(db.lang, row.value); }
    } else if op.name in db.subs {
      assert SubscriptionOk(db.lang, db.subs[op.name]);
      var row := Patched(db.lang, db.topics, db.subs[op.name], op.patch);
      if row.Ok? { assert SubscriptionOk(db.lang, row.value); }
    }
  }

  lemma {:induction false} RunExtends(dbs: seq<Db>, ops: seq<Op>, i: nat, j: nat)
    requires IsRun(dbs, ops) && i <= j < |dbs| && DbOk(dbs[i])
    ensures DbOk(dbs[j]) && Extends(dbs[i], dbs[j])
  {
    if i < j {
      RunExtends(dbs, ops, i, j - 1);
      StepExtends(dbs[j - 1], ops[j - 1]);
    }
  }

  /** In every reachable state a subscription has either no dead-letter topic and limit 0, or a dead-letter
      topic and a limit of 5 to 100. */
  lemma PoliciesAlwaysOk(dbs: seq<Db>, ops: seq<Op>, j: nat, name: string)
    requires IsRun(dbs, ops) && DbOk(dbs[0]) && j < |dbs| && name in dbs[j].subs
    ensures PolicyOk(dbs[j].subs[name])
  {
    RunExtends(dbs, ops, 0, j);
  }

  /** Every stored filter parses, in every reachable state of a store over the language it uses. */
  lemma FiltersAlwaysParse(dbs: seq<Db>, ops: seq<Op>, j: nat, name: string)
    requires IsRun(dbs, ops) && DbOk(dbs[0]) && dbs[0].lang == LANGUAGE && j < |dbs| && name in dbs[j].subs
    ensures ParseFilter(dbs[j].subs[name].filter).Ok?
  {
    RunExtends(dbs, ops, 0, j);
    assert SubscriptionOk(dbs[j].lang, dbs[j].subs[name]);
    EmptyFilterParses();
  }

  lemma EmptyFilterParses()
    ensures ParseFilter("") == Ok(map[])
  {
  }

  // ---------- leases ----------

  /** The operation changes or clears the lease of message `a` by request. */
  predicate Touches(op: Op, name: string, a: AckId) {
    || (op.ModifyAckDeadlineOp? && op.name == name && a in op.ids)
    || (op.SeekOp? && op.name == name)
  }

  /** No Pull in ops[from..to] runs at a time after `limit`. */
  ghost predicate PullsBy(ops: seq<Op>, from: nat, to: nat, limit: Instant)
    requires to <= |ops|
  {
    forall k :: from <= k < to && ops[k].PullOp? ==> ops[k].now <= limit
  }

  /** The message is gone for good, or still held under a lease that ends no earlier than `d`. */
  ghost predicate Held(db: Db, name: string, a: AckId, d: Instant) {
    && a < db.nextAck
    && (a in db.msgs ==> db.msgs[a].subscription == name && db.msgs[a].delivered && db.msgs[a].ackDeadline == Some(d))
  }

  lemma NotSelectedWhileHeld(db: Db, op: Op, name: string, a: AckId, d: Instant)
    requires Legal(db, op) && op.PullOp? && op.name in db.subs && op.now <= d && Held(db, name, a, d)
    ensures !HasAck(op.rows, a)
  {
    forall i | 0 <= i < |op.rows| ensures op.rows[i].ack != a {
      assert Available(op.rows[i].msg, op.name, op.now);
    }
  }

  lemma HeldStays(db: Db, op: Op, name: string, a: AckId, d: Instant)
    requires DbOk(db) && Legal(db, op) && Held(db, name, a, d) && !Touches(op, name, a)
    requires op.PullOp? ==> op.now <= d
    ensures Held(Apply(db, op), name, a, d)
  {
    if op.PullOp? {
      PullKeepsHeld(db, op, name, a, d);
    } else if op.PushFailureOp? || op.PublishOp? {
      DeliveryKeepsHeld(db, op, name, a, d);
    } else {
      StepExtends(db, op);
    }
  }

  lemma DeliveryKeepsHeld(db: Db, op: Op, name: string, a: AckId, d: Instant)
    requires DbOk(db) && Held(db, name, a, d) && (op.PushFailureOp? || op.PublishOp?)
    ensures Held(Apply(db, op), name, a, d)
  {
    if op.PublishOp? {
      PublishAdvances(db, op.topic, op.data, op.attributes, op.now);
    } else if op.ack in db.msgs {
      PushAdvances(db, op.name, op.ack, op.now);
    }
  }

  lemma PullKeepsHeld(db: Db, op: Op, name: string, a: AckId, d: Instant)
    requires DbOk(db) && Legal(db, op) && Held(db, name, a, d) && op.PullOp? && op.now <= d
    ensures Held(Apply(db, op), name, a, d)
  {
    StepExtends(db, op);
    if op.name in db.subs {
      var policy := db.subs[op.name];
      NotSelectedWhileHeld(db, op, name, a, d);
      LoopAdvances(db, op.name, policy, LeaseEnd(policy, op.now), op.now, op.rows, PullLimit(op.n));
    }
  }

  lemma {:induction false} HeldThrough(dbs: seq<Db>, ops: seq<Op>, i: nat, j: nat, name: string, a: AckId, d: Instant)
    requires IsRun(dbs, ops) && i <= j <= |ops| && DbOk(dbs[i]) && Held(dbs[i], name, a, d)
    requires forall k :: i <= k < j ==> !Touches(ops[k], name, a)
    requires PullsBy(ops, i, j, d)
    ensures DbOk(dbs[j]) && Held(dbs[j], name, a, d)
  {
    if i < j {
      HeldThrough(dbs, ops, i, j - 1, name, a, d);
      HeldStays(dbs[j - 1], ops[j - 1], name, a, d);
      StepExtends(dbs[j - 1], ops[j - 1]);
    }
  }

  /** The message that `r` returns is stored as it was returned, and was one of `rows`. */
  ghost predicate StoredAs(after: Db, r: Row, deadline: Instant, rows: seq<Row>) {
    && r.ack in after.msgs && after.msgs[r.ack] == r.msg && r.msg.delivered && r.msg.ackDeadline == Some(deadline)
    && exists i :: 0 <= i < |rows| && rows[i].ack == r.ack && rows[i].msg.subscription == r.msg.subscription
  }

  lemma LeasedIsStored(db: Db, name: string, policy: Subscription, deadline: Instant, now: Instant, rows: seq<Row>, room: int)
    requires DbOk(db) && Read(db, rows) && rows != [] && !DeadLetters(policy, rows[0].msg)
    ensures var db1 := SetLease(db, rows[0].ack, deadline, rows[0].msg.attempts + 1);
            StoredAs(WorkRows(db1, name, policy, deadline, now, rows[1..], room).db, Leased(rows[0], deadline), deadline, rows)
  {
    var db1 := SetLease(db, rows[0].ack, deadline, rows[0].msg.attempts + 1);
    LeaseMeaning(db, name, policy, deadline, rows[0]);
    LoopAdvances(db1, name, policy, deadline, now, rows[1..], room);
    assert !HasAck(rows[1..], rows[0].ack);
  }

  lemma StoredEarlier(after: Db, r: Row, deadline: Instant, rows: seq<Row>)
    requires rows != [] && StoredAs(after, r, deadline, rows[1..])
    ensures StoredAs(after, r, deadline, rows)
  {
    var i :| 0 <= i < |rows[1..]| && rows[1..][i].ack == r.ack && rows[1..][i].msg.subscription == r.msg.subscription;
    assert rows[i + 1] == rows[1..][i];
  }

  lemma ReadOn(db: Db, name: string, policy: Subscription, deadline: Instant, now: Instant, rows: seq<Row>)
    requires DbOk(db) && Read(db, rows) && rows != []
    ensures var turn := Turn(db, name, policy, deadline, now, rows[0]);
            turn.Ok? ==> DbOk(turn.value) && Read(turn.value, rows[1..])
  {
    TurnMeaning(db, name, policy, deadline, now, rows[0]);
    forall i | 0 <= i < |rows[1..]| ensures rows[1..][i] == rows[i + 1] {}
  }

  lemma StoredOfEither(out: PullOutcome, lease: seq<Row>, rest: PullOutcome, deadline: Instant, rows: seq<Row>, k: nat)
    requires rows != [] && out.db == rest.db && out.leased == lease + rest.leased && k < |out.leased|
    requires if k < |lease| then StoredAs(rest.db, lease[k], deadline, rows) else StoredAs(rest.db, rest.leased[k - |lease|], deadline, rows[1..])
    ensures StoredAs(out.db, out.leased[k], deadline, rows)
  {
    if k >= |lease| { StoredEarlier(rest.db, rest.leased[k - |lease|], deadline, rows); }
  }

  /** Every message a Pull returns carries the state its row now has. */
  lemma {:induction false} ReturnedIsStored(db: Db, name: string, policy: Subscription, deadline: Instant, now: Instant, rows: seq<Row>, room: int, k: nat)
    requires DbOk(db) && Read(db, rows)
    requires k < |WorkRows(db, name, policy, deadline, now, rows, room).leased|
    ensures var out := WorkRows(db, name, policy, deadline, now, rows, room); StoredAs(out.db, out.leased[k], deadline, rows)
    decreases |rows|
  {
    ReadOn(db, name, policy, deadline, now, rows);
    var db1, lease := Turn(db, name, policy, deadline, now, rows[0]).value, TurnLease(policy, deadline, rows[0]);
    var rest := WorkRows(db1, name, policy, deadline, now, rows[1..], room - |lease|);
    if k < |lease| {
      LeasedIsStored(db, name, policy, deadline, now, rows, room - |lease|);
    } else {
      ReturnedIsStored(db1, name, policy, deadline, now, rows[1..], room - |lease|, k - |lease|);
    }
    StoredOfEither(WorkRows(db, name, policy, deadline, now, rows, room), lease, rest, deadline, rows, k);
  }

  lemma ReturnedIsHeld(db: Db, op: Op, k: nat)
    requires DbOk(db) && Legal(db, op) && op.PullOp? && k < |Returned(db, op)|
    ensures var r := Returned(db, op)[k]; r.msg.ackDeadline.Some? && Held(Apply(db, op), op.name, r.ack, r.msg.ackDeadline.value)
  {
    var policy := db.subs[op.name];
    ReturnedIsStored(db, op.name, policy, LeaseEnd(policy, op.now), op.now, op.rows, PullLimit(op.n), k);
    StepExtends(db, op);
  }

  lemma HeldIsNotReturned(db: Db, op: Op, name: string, a: AckId, d: Instant)
    requires DbOk(db) && Legal(db, op) && op.PullOp? && op.now <= d && Held(db, name, a, d)
    ensures !HasAck(Returned(db, op), a)
  {
    if op.name in db.subs {
      NotSelectedWhileHeld(db, op, name, a, d);
      ReturnedWereSelected(db, op, a);
    }
  }

  /** After a Pull returns a message with deadline d, no Pull at a time up to d returns that ack id again,
      unless a deadline change or a seek touched it in between. */
  lemma LeaseExclusive(dbs: seq<Db>, ops: seq<Op>, i: nat, j: nat, k: nat)
    requires IsRun(dbs, ops) && DbOk(dbs[0]) && i < j < |ops|
    requires ops[i].PullOp? && ops[j].PullOp? && k < |Returned(dbs[i], ops[i])|
    requires var r := Returned(dbs[i], ops[i])[k];
             && r.msg.ackDeadline.Some? && PullsBy(ops, i + 1, j + 1, r.msg.ackDeadline.value)
             && forall m :: i < m < j ==> !Touches(ops[m], ops[i].name, r.ack)
    ensures !HasAck(Returned(dbs[j], ops[j]), Returned(dbs[i], ops[i])[k].ack)
  {
    var r := Returned(dbs[i], ops[i])[k];
    var d := r.msg.ackDeadline.value;
    RunExtends(dbs, ops, 0, i);
    ReturnedIsHeld(dbs[i], ops[i], k);
    StepExtends(dbs[i], ops[i]);
    HeldThrough(dbs, ops, i + 1, j, ops[i].name, r.ack, d);
    HeldIsNotReturned(dbs[j], ops[j], ops[i].name, r.ack, d);
  }

  lemma ReturnedWereSelected(db: Db, op: Op, a: AckId)
    requires DbOk(db) && Legal(db, op) && op.PullOp? && op.name in db.subs && !HasAck(op.rows, a)
    ensures !HasAck(Returned(db, op), a)
  {
    var policy := db.subs[op.name];
    forall k | 0 <= k < |Returned(db, op)| ensures Returned(db, op)[k].ack != a {
      ReturnedIsStored(db, op.name, policy, LeaseEnd(policy, op.now), op.now, op.rows, PullLimit(op.n), k);
    }
  }

  /** Once acknowledged, an ack id is never returned again. */
  lemma AcknowledgedForGood(dbs: seq<Db>, ops: seq<Op>, i: nat, j: nat, a: AckId)
    requires IsRun(dbs, ops) && DbOk(dbs[0]) && i < j < |ops|
    requires ops[i].AcknowledgeOp? && a in ops[i].ids && a in dbs[i].msgs && dbs[i].msgs[a].subscription == ops[i].name
    ensures a !in dbs[j].msgs && !HasAck(Returned(dbs[j], ops[j]), a)
  {
    RunExtends(dbs, ops, 0, i);
    StepExtends(dbs[i], ops[i]);
    RunExtends(dbs, ops, i + 1, j);
    if ops[j].PullOp? && ops[j].name in dbs[j].subs {
      assert Legal(dbs[j], ops[j]);
      ReturnedWereSelected(dbs[j], ops[j], a);
    }
  }
}
