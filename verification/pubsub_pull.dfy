/** What publishing and pulling do to the table of messages, stated without the loop. */
module PubSubPull {
  import opened Basics
  import opened Text
  import opened PubSubFilter
  import opened PubSubModel

  // ---------- publishing ----------

  lemma {:induction false} TargetsMatch(lang: Language, listing: seq<(string, string)>, attributes: Attributes, n: string)
    ensures n in Targets(lang, listing, attributes) <==>
              exists i :: 0 <= i < |listing| && listing[i].0 == n && lang.matches(listing[i].1, attributes)
  {
    if listing != [] {
      TargetsMatch(lang, listing[1..], attributes, n);
      if i :| 0 <= i < |listing| && listing[i].0 == n && lang.matches(listing[i].1, attributes) {
        if i > 0 { assert listing[1..][i - 1] == listing[i]; }
      }
      if n in Targets(lang, listing[1..], attributes) {
        var i :| 0 <= i < |listing[1..]| && listing[1..][i].0 == n && lang.matches(listing[1..][i].1, attributes);
        assert listing[i + 1] == listing[1..][i];
      }
    }
  }

  lemma {:induction false} TargetsDistinct(lang: Language, listing: seq<(string, string)>, attributes: Attributes)
    requires forall i, j :: 0 <= i < j < |listing| ==> listing[i].0 != listing[j].0
    ensures Distinct(Targets(lang, listing, attributes))
  {
    if listing != [] {
      TargetsDistinct(lang, listing[1..], attributes);
      TargetsMatch(lang, listing[1..], attributes, listing[0].0);
    }
  }

  /** The rows a publish to `topic` added for subscription `n`. */
  ghost function NewCopies(before: Db, after: Db, n: string): set<AckId> {
    set a | a in after.msgs && a !in before.msgs && after.msgs[a].subscription == n
  }

  /** Committing to distinct existing targets adds one copy each and touches nothing else. */
  ghost predicate CommitEffect(db: Db, after: Db, topic: string, data: Bytes, attributes: Attributes, now: Instant) {
    && DbOk(after) && after.lang == db.lang && after.topics == db.topics && after.subs == db.subs && db.nextAck <= after.nextAck
    && (forall a :: a in db.msgs ==> a in after.msgs && after.msgs[a] == db.msgs[a])
    && (forall a :: a in after.msgs && a !in db.msgs ==>
          && db.nextAck <= a < after.nextAck
          && after.msgs[a] == Message(db.nextId, after.msgs[a].subscription, topic, data, attributes, now, false, None, 0))
  }

  lemma CommitAddsCopies(db: Db, topic: string, data: Bytes, attributes: Attributes, now: Instant, targets: seq<string>)
    requires DbOk(db)
    ensures var after := Commit(db, topic, data, attributes, now, targets);
            && CommitEffect(db, after, topic, data, attributes, now)
            && (forall a :: a in after.msgs && a !in db.msgs ==> after.msgs[a].subscription in targets)
  {
  }

  lemma NewCopiesAt(db: Db, topic: string, data: Bytes, attributes: Attributes, now: Instant, targets: seq<string>, n: string)
    requires forall a :: a in db.msgs ==> a < db.nextAck
    ensures forall a :: a in NewCopies(db, Commit(db, topic, data, attributes, now, targets), n) <==>
                          db.nextAck <= a < db.nextAck + |targets| && targets[a - db.nextAck] == n
  {
  }

  lemma CommitCopiesPerTarget(db: Db, topic: string, data: Bytes, attributes: Attributes, now: Instant, targets: seq<string>, n: string)
    requires forall a :: a in db.msgs ==> a < db.nextAck
    requires Distinct(targets)
    ensures |NewCopies(db, Commit(db, topic, data, attributes, now, targets), n)| == if n in targets then 1 else 0
  {
    var after := Commit(db, topic, data, attributes, now, targets);
    NewCopiesAt(db, topic, data, attributes, now, targets, n);
    if n in targets {
      var i :| 0 <= i < |targets| && targets[i] == n;
      OneElement(NewCopies(db, after, n), db.nextAck + i);
    } else {
      assert NewCopies(db, after, n) == {};
    }
  }

  lemma OneElement(s: set<AckId>, x: AckId)
    requires x in s && forall y :: y in s ==> y == x
    ensures |s| == 1
  {
    assert s == {x};
  }

  lemma TopicTargets(db: Db, topic: string, attributes: Attributes)
    ensures var targets := Targets(db.lang, Listing(db, topic), attributes);
            && Distinct(targets)
            && (forall n :: n in targets <==> n in db.subs && db.subs[n].topic == topic && db.lang.matches(db.subs[n].filter, attributes))
  {
    var listing := Listing(db, topic);
    forall i, j | 0 <= i < j < |listing| ensures listing[i].0 != listing[j].0 {
      LessIrreflexive(listing[i].0);
    }
    TargetsDistinct(db.lang, listing, attributes);
    forall n
      ensures n in Targets(db.lang, listing, attributes) <==>
                n in db.subs && db.subs[n].topic == topic && db.lang.matches(db.subs[n].filter, attributes)
    {
      TargetsMatch(db.lang, listing, attributes, n);
      assert n in TopicSubs(db, topic) <==> n in db.subs && db.subs[n].topic == topic;
    }
  }

  /** Publishing adds exactly one undelivered copy, under an ack id never used before, for each subscription
      of the topic whose filter the attributes pass; every other row and table stays as it was. */
  lemma PublishAddsOneCopyEach(db: Db, topic: string, data: Bytes, attributes: Attributes, now: Instant)
    requires DbOk(db) && topic in db.topics
    ensures var after := Publish(db, topic, data, attributes, now).value;
            && CommitEffect(db, after, topic, data, attributes, now)
            && (forall n :: |NewCopies(db, after, n)| ==
                              if n in db.subs && db.subs[n].topic == topic && db.lang.matches(db.subs[n].filter, attributes) then 1 else 0)
            && (forall a :: a in after.msgs && a !in db.msgs ==>
                  after.msgs[a].subscription in db.subs && db.subs[after.msgs[a].subscription].topic == topic)
  {
    TopicTargets(db, topic, attributes);
    var targets := Targets(db.lang, Listing(db, topic), attributes);
    CommitAddsCopies(db, topic, data, attributes, now, targets);
    forall n ensures |NewCopies(db, Commit(db, topic, data, attributes, now, targets), n)| == if n in targets then 1 else 0 {
      CommitCopiesPerTarget(db, topic, data, attributes, now, targets, n);
    }
  }

  // ---------- pulling ----------

  /** How many candidates the loop works through: until `room` of them have been leased. */
  function Worked(policy: Subscription, rows: seq<Row>, room: int): (w: nat)
    ensures w <= |rows|
  {
    if rows == [] || room <= 0 then 0
    else 1 + Worked(policy, rows[1..], if DeadLetters(policy, rows[0].msg) then room else room - 1)
  }

  function LeaseAll(policy: Subscription, deadline: Instant, rows: seq<Row>): (r: seq<Row>)
    ensures |r| <= |rows|
  {
    if rows == [] then [] else TurnLease(policy, deadline, rows[0]) + LeaseAll(policy, deadline, rows[1..])
  }

  /** The row of message `a` after its turn in the loop. */
  ghost predicate WorkedOff(policy: Subscription, deadline: Instant, row: Row, after: Db) {
    if DeadLetters(policy, row.msg) then row.ack !in after.msgs
    else row.ack in after.msgs && after.msgs[row.ack] == Leased(row, deadline).msg
  }

  /** Rows that appeared carry messages republished to the dead-letter topic. */
  ghost predicate Republished(before: Db, after: Db, name: string, policy: Subscription, rows: seq<Row>, a: AckId) {
    && before.nextAck <= a < after.nextAck && a in after.msgs
    && var m := after.msgs[a];
    && m.subscription in before.subs && before.subs[m.subscription].topic == policy.deadLetterTopic
    && !m.delivered && m.ackDeadline == None && m.attempts == 0
    && exists i :: 0 <= i < |rows| && DeadLetters(policy, rows[i].msg)
                   && m.data == rows[i].msg.data && m.attributes == rows[i].msg.attributes[SOURCE := name]
  }

  ghost predicate PullEffect(before: Db, after: Db, name: string, policy: Subscription, deadline: Instant, worked: seq<Row>) {
    && DbOk(after) && after.lang == before.lang && after.topics == before.topics && after.subs == before.subs && before.nextAck <= after.nextAck
    && (forall i :: 0 <= i < |worked| ==> WorkedOff(policy, deadline, worked[i], after))
    && (forall a :: a in before.msgs && !HasAck(worked, a) ==> a in after.msgs && after.msgs[a] == before.msgs[a])
    && (forall a :: a in after.msgs && a !in before.msgs ==> Republished(before, after, name, policy, worked, a))
  }

  /** The state after one row's turn, with the rows it may have added. */
  ghost predicate TurnEffect(db: Db, db1: Db, name: string, policy: Subscription, deadline: Instant, row: Row) {
    && DbOk(db1) && db1.lang == db.lang && db1.subs == db.subs && db1.topics == db.topics && db.nextAck <= db1.nextAck
    && WorkedOff(policy, deadline, row, db1)
    && (forall a :: a in db.msgs && a != row.ack ==> a in db1.msgs && db1.msgs[a] == db.msgs[a])
    && (forall a :: a in db1.msgs && a !in db.msgs ==> Republished(db, db1, name, policy, [row], a))
  }

  lemma DeadLetterMeaning(db: Db, name: string, policy: Subscription, deadline: Instant, now: Instant, row: Row)
    requires DbOk(db) && row.ack in db.msgs && DeadLetters(policy, row.msg) && policy.deadLetterTopic in db.topics
    ensures var r := DeadLetter(db, name, policy, row, now);
            r.Ok? && TurnEffect(db, r.value, name, policy, deadline, row)
  {
    PublishAddsOneCopyEach(db, policy.deadLetterTopic, row.msg.data, row.msg.attributes[SOURCE := name], now);
    var db1 := DeadLetter(db, name, policy, row, now).value;
    forall a | a in db1.msgs && a !in db.msgs ensures Republished(db, db1, name, policy, [row], a) {
      assert [row][0] == row;
    }
  }

  lemma LeaseMeaning(db: Db, name: string, policy: Subscription, deadline: Instant, row: Row)
    requires DbOk(db) && row.ack in db.msgs && db.msgs[row.ack] == row.msg && !DeadLetters(policy, row.msg)
    ensures TurnEffect(db, SetLease(db, row.ack, deadline, row.msg.attempts + 1), name, policy, deadline, row)
  {
  }

  lemma TurnMeaning(db: Db, name: string, policy: Subscription, deadline: Instant, now: Instant, row: Row)
    requires DbOk(db) && row.ack in db.msgs && db.msgs[row.ack] == row.msg
    ensures var r := Turn(db, name, policy, deadline, now, row);
            && (r.Ok? <==> DeadLetters(policy, row.msg) ==> policy.deadLetterTopic in db.topics)
            && (r.Ok? ==> TurnEffect(db, r.value, name, policy, deadline, row))
  {
    if !DeadLetters(policy, row.msg) {
      LeaseMeaning(db, name, policy, deadline, row);
    } else if policy.deadLetterTopic in db.topics {
      DeadLetterMeaning(db, name, policy, deadline, now, row);
    }
  }

  /** Some row in the worked prefix has to be dead-lettered. */
  ghost predicate SomeDeadLetter(policy: Subscription, rows: seq<Row>, w: nat)
    requires w <= |rows|
  {
    exists i :: 0 <= i < w && DeadLetters(policy, rows[i].msg)
  }

  lemma SomeDeadLetterStep(policy: Subscription, rows: seq<Row>, v: nat)
    requires v + 1 <= |rows|
    ensures SomeDeadLetter(policy, rows, v + 1) <==> DeadLetters(policy, rows[0].msg) || SomeDeadLetter(policy, rows[1..], v)
  {
    forall i | 0 <= i < v ensures rows[1..][i] == rows[i + 1] {}
    if i :| 0 <= i < v + 1 && DeadLetters(policy, rows[i].msg) {
      if i > 0 { assert DeadLetters(policy, rows[1..][i - 1].msg); }
    }
    if i :| 0 <= i < v && DeadLetters(policy, rows[1..][i].msg) { assert DeadLetters(policy, rows[i + 1].msg); }
  }

  ghost predicate LoopEffect(db: Db, out: PullOutcome, name: string, policy: Subscription, deadline: Instant, rows: seq<Row>, room: int)
  {
    var w := Worked(policy, rows, room);
    && (out.failed <==> policy.deadLetterTopic !in db.topics && SomeDeadLetter(policy, rows, w))
    && (!out.failed ==>
          && out.leased == LeaseAll(policy, deadline, rows[..w])
          && PullEffect(db, out.db, name, policy, deadline, rows[..w])
          && (w < |rows| ==> |out.leased| >= room))
    && (room >= 0 ==> |out.leased| <= room)
  }

  /** The whole loop: it works through a prefix of its candidates, and what happens to each depends on its own
      row alone. */
  lemma {:induction false} LoopMeaning(db: Db, name: string, policy: Subscription, deadline: Instant, now: Instant, rows: seq<Row>, room: int)
    requires DbOk(db) && Read(db, rows)
    ensures LoopEffect(db, WorkRows(db, name, policy, deadline, now, rows, room), name, policy, deadline, rows, room)
    decreases |rows|
  {
    if rows != [] && room > 0 {
      TurnMeaning(db, name, policy, deadline, now, rows[0]);
      var turn := Turn(db, name, policy, deadline, now, rows[0]);
      var room1 := room - |TurnLease(policy, deadline, rows[0])|;
      var out := WorkRows(db, name, policy, deadline, now, rows, room);
      if turn.Ok? {
        LoopMeaning(turn.value, name, policy, deadline, now, rows[1..], room1);
        LoopStep(db, turn.value, WorkRows(turn.value, name, policy, deadline, now, rows[1..], room1), out, name, policy, deadline, rows, room);
      } else {
        assert Worked(policy, rows, room) > 0;
      }
    }
  }

  lemma WorkedSplit(rows: seq<Row>, w: nat, v: nat)
    requires rows != [] && w == v + 1 <= |rows|
    ensures rows[..w] == [rows[0]] + rows[1..][..v] && rows[..w][1..] == rows[1..][..v]
  {
  }

  lemma RepublishedEarlier(db1: Db, after: Db, name: string, policy: Subscription, worked: seq<Row>, a: AckId)
    requires worked != [] && Republished(db1, after, name, policy, worked[1..], a)
    ensures Republished(db1, after, name, policy, worked, a)
  {
    var m := after.msgs[a];
    var i :| 0 <= i < |worked[1..]| && DeadLetters(policy, worked[1..][i].msg)
             && m.data == worked[1..][i].msg.data && m.attributes == worked[1..][i].msg.attributes[SOURCE := name];
    assert worked[i + 1] == worked[1..][i];
  }

  /** The effect on one more row in front. */
  lemma LoopStep(db: Db, db1: Db, out1: PullOutcome, out: PullOutcome, name: string, policy: Subscription, deadline: Instant,
                 rows: seq<Row>, room: int)
    requires DbOk(db) && rows != [] && Read(db, rows) && room > 0
    requires DeadLetters(policy, rows[0].msg) ==> policy.deadLetterTopic in db.topics
    requires TurnEffect(db, db1, name, policy, deadline, rows[0])
    requires LoopEffect(db1, out1, name, policy, deadline, rows[1..], room - |TurnLease(policy, deadline, rows[0])|)
    requires out == out1.(leased := if out1.failed then [] else TurnLease(policy, deadline, rows[0]) + out1.leased)
    ensures LoopEffect(db, out, name, policy, deadline, rows, room)
  {
    var room1 := room - |TurnLease(policy, deadline, rows[0])|;
    var w, v := Worked(policy, rows, room), Worked(policy, rows[1..], room1);
    WorkedSplit(rows, w, v);
    SomeDeadLetterStep(policy, rows, v);
    if !out.failed {
      PullEffectStep(db, db1, out.db, name, policy, deadline, rows[..w]);
      LeaseAllStep(policy, deadline, rows, w, v);
    }
  }

  lemma LeaseAllStep(policy: Subscription, deadline: Instant, rows: seq<Row>, w: nat, v: nat)
    requires rows != [] && w == v + 1 <= |rows|
    ensures LeaseAll(policy, deadline, rows[..w]) == TurnLease(policy, deadline, rows[0]) + LeaseAll(policy, deadline, rows[1..][..v])
  {
    WorkedSplit(rows, w, v);
  }

  lemma PullEffectStep(db: Db, db1: Db, after: Db, name: string, policy: Subscription, deadline: Instant, worked: seq<Row>)
    requires DbOk(db) && worked != [] && Read(db, worked)
    requires TurnEffect(db, db1, name, policy, deadline, worked[0])
    requires PullEffect(db1, after, name, policy, deadline, worked[1..])
    ensures PullEffect(db, after, name, policy, deadline, worked)
  {
    var rest := worked[1..];
    forall i | 0 <= i < |worked| ensures WorkedOff(policy, deadline, worked[i], after) {
      if i > 0 {
        assert worked[i] == rest[i - 1];
      } else {
        assert !HasAck(rest, worked[0].ack);
        assert worked[0].ack < db.nextAck;
      }
    }
    forall a | a in db.msgs && !HasAck(worked, a) ensures a in after.msgs && after.msgs[a] == db.msgs[a] {
      assert worked[0].ack != a;
      forall i | 0 <= i < |rest| ensures rest[i].ack != a { assert rest[i] == worked[i + 1]; }
    }
    forall a | a in after.msgs && a !in db.msgs ensures Republished(db, after, name, policy, worked, a) {
      if a in db1.msgs {
        assert Republished(db, db1, name, policy, [worked[0]], a);
        assert forall i :: 0 <= i < |rest| ==> rest[i] == worked[i + 1];
        assert !HasAck(rest, a);
      } else {
        RepublishedEarlier(db1, after, name, policy, worked, a);
      }
    }
  }

  // ---------- progress ----------

  function Acks(rows: seq<Row>): (r: set<AckId>)
    ensures forall a :: a in r <==> HasAck(rows, a)
  {
    set i | 0 <= i < |rows| :: rows[i].ack
  }

  lemma {:induction false} AcksCount(rows: seq<Row>)
    requires DistinctAcks(rows)
    ensures |Acks(rows)| == |rows|
  {
    if rows == [] {
      assert Acks(rows) == {};
    } else {
      AcksCount(rows[1..]);
      assert forall i :: 0 <= i < |rows| - 1 ==> rows[1..][i] == rows[i + 1];
      assert HasAck(rows, rows[0].ack);
      forall a ensures HasAck(rows, a) <==> a == rows[0].ack || HasAck(rows[1..], a) {
        if HasAck(rows[1..], a) {
          var i :| 0 <= i < |rows[1..]| && rows[1..][i].ack == a;
          assert rows[i + 1].ack == a;
        }
        if i :| 0 <= i < |rows| && rows[i].ack == a {
          if i > 0 { assert rows[1..][i - 1].ack == a; }
        }
      }
      assert Acks(rows) == {rows[0].ack} + Acks(rows[1..]);
      assert !HasAck(rows[1..], rows[0].ack);
    }
  }

  /** A pull for up to `limit` messages works through at least that many, or through all there are. */
  lemma WorkedEnough(db: Db, name: string, now: Instant, window: int, rows: seq<Row>, policy: Subscription, deadline: Instant, limit: int)
    requires Selected(db, name, now, window, rows) && 0 < limit <= window
    requires Worked(policy, rows, limit) < |rows| ==> |LeaseAll(policy, deadline, rows[..Worked(policy, rows, limit)])| >= limit
    ensures Worked(policy, rows, limit) >= Min(limit, |AvailableSet(db, name, now)|)
  {
    var available := AvailableSet(db, name, now);
    if |rows| < window {
      assert available <= Acks(rows);
      AcksCount(rows);
      SubsetCount(available, Acks(rows));
    }
  }

  lemma SubsetCount(a: set<AckId>, b: set<AckId>)
    requires a <= b
    ensures |a| <= |b|
  {
    assert |b| == |a| + |b - a| by { assert b == a + (b - a); }
  }

  /** A subscription whose dead letters come back to it is fed by its own dead-letter topic. */
  predicate FeedsItself(db: Db, name: string)
    requires name in db.subs
  {
    db.subs[name].topic == db.subs[name].deadLetterTopic
  }

  /** The whole effect of one Pull. It fails exactly when a row that must be dead-lettered comes up while the
      dead-letter topic is gone. Otherwise it works through a prefix of the rows the SELECT chose, at least
      min(n, available) of them, leases at most n, and (unless the subscription feeds itself, or its lease
      length overflows a 64-bit duration) exactly the rows worked through stop being available. */
  lemma PullMeaning(db: Db, name: string, maxMessages: int, now: Instant, rows: seq<Row>)
    requires DbOk(db) && name in db.subs && maxMessages < TWO63
    requires Selected(db, name, now, FetchWindow(PullLimit(maxMessages)), rows)
    ensures var policy, limit := db.subs[name], PullLimit(maxMessages);
            var out, w := Pull(db, name, maxMessages, now, rows), Worked(db.subs[name], rows, PullLimit(maxMessages));
            && (out.failed <==> policy.deadLetterTopic !in db.topics && SomeDeadLetter(policy, rows, w))
            && |out.leased| <= limit
            && (!out.failed ==>
                  && PullEffect(db, out.db, name, policy, LeaseEnd(policy, now), rows[..w])
                  && out.leased == LeaseAll(policy, LeaseEnd(policy, now), rows[..w])
                  && w >= Min(limit, |AvailableSet(db, name, now)|)
                  && (!FeedsItself(db, name) && policy.ackDeadlineSeconds * SECOND < TWO63 ==>
                        AvailableSet(out.db, name, now) == AvailableSet(db, name, now) - Acks(rows[..w])))
  {
    var policy, limit := db.subs[name], PullLimit(maxMessages);
    var deadline := LeaseEnd(policy, now);
    var out := Pull(db, name, maxMessages, now, rows);
    var w := Worked(policy, rows, limit);
    LoopMeaning(db, name, policy, deadline, now, rows, limit);
    if !out.failed {
      WorkedEnough(db, name, now, FetchWindow(limit), rows, policy, deadline, limit);
      if !FeedsItself(db, name) && policy.ackDeadlineSeconds * SECOND < TWO63 {
        StopBeingAvailable(db, out.db, name, policy, deadline, now, rows[..w]);
      }
    }
  }

  lemma StopBeingAvailable(db: Db, after: Db, name: string, policy: Subscription, deadline: Instant, now: Instant, worked: seq<Row>)
    requires DbOk(db) && name in db.subs && db.subs[name] == policy && !FeedsItself(db, name) && deadline >= now
    requires PullEffect(db, after, name, policy, deadline, worked)
    requires forall i :: 0 <= i < |worked| ==> worked[i].ack in db.msgs && worked[i].msg.subscription == name
    ensures AvailableSet(after, name, now) == AvailableSet(db, name, now) - Acks(worked)
  {
    forall a ensures a in AvailableSet(after, name, now) <==> a in AvailableSet(db, name, now) && !HasAck(worked, a) {
      if HasAck(worked, a) {
        var i :| 0 <= i < |worked| && worked[i].ack == a;
        assert WorkedOff(policy, deadline, worked[i], after);
      } else if a in after.msgs && a !in db.msgs {
        assert Republished(db, after, name, policy, worked, a);
      }
    }
  }

  /** The subscription exists, its dead letters go elsewhere, and its leases have a sensible length. */
  ghost predicate Drainable(db: Db, name: string) {
    && DbOk(db) && name in db.subs && !FeedsItself(db, name)
    && db.subs[name].ackDeadlineSeconds * SECOND < TWO63
  }

  ghost predicate GoodPull(db: Db, after: Db, name: string, n: int, now: Instant, rows: seq<Row>)
    requires name in db.subs && 0 < n < TWO63
  {
    && Selected(db, name, now, FetchWindow(n), rows)
    && Pull(db, name, n, now, rows).db == after && !Pull(db, name, n, now, rows).failed
  }

  lemma OnePullDrains(db: Db, after: Db, name: string, n: int, now: Instant, rows: seq<Row>)
    requires 0 < n < TWO63 && Drainable(db, name) && GoodPull(db, after, name, n, now, rows)
    ensures Drainable(after, name)
    ensures var k := |AvailableSet(db, name, now)|; |AvailableSet(after, name, now)| <= k - Min(n, k)
  {
    PullMeaning(db, name, n, now, rows);
    var worked := rows[..Worked(db.subs[name], rows, n)];
    var before := AvailableSet(db, name, now);
    WithoutAcks(before, worked);
  }

  lemma WithoutAcks(all: set<AckId>, worked: seq<Row>)
    requires DistinctAcks(worked) && forall a :: HasAck(worked, a) ==> a in all
    ensures |all - Acks(worked)| == |all| - |worked|
  {
    AcksCount(worked);
    assert Acks(worked) <= all;
  }

  function Backlog(db: Db, name: string, now: Instant): nat {
    |AvailableSet(db, name, now)|
  }

  /** `k` pulls of n, one after the other at the same clock. */
  ghost predicate Pulls(dbs: seq<Db>, pulls: seq<seq<Row>>, name: string, n: int, now: Instant) {
    && |dbs| == |pulls| + 1 && 0 < n < TWO63
    && forall i {:trigger pulls[i]} :: 0 <= i < |pulls| ==> name in dbs[i].subs && GoodPull(dbs[i], dbs[i + 1], name, n, now, pulls[i])
  }

  lemma TakeOff(backlog: nat, left: nat, n: nat, k: nat)
    requires left <= if backlog > k * n then backlog - k * n else 0
    ensures var rest := left - Min(n, left); rest <= if backlog > (k + 1) * n then backlog - (k + 1) * n else 0
  {
    assert (k + 1) * n == k * n + n;
  }

  /** Pulling again and again at a fixed clock drains the backlog: every pull of n takes at least n off it, or
      all that is left. */
  lemma {:induction false} PullsDrain(dbs: seq<Db>, pulls: seq<seq<Row>>, name: string, n: int, now: Instant, k: nat)
    requires Pulls(dbs, pulls, name, n, now) && Drainable(dbs[0], name) && k <= |pulls|
    ensures Drainable(dbs[k], name)
    ensures Backlog(dbs[k], name, now) <= if Backlog(dbs[0], name, now) > k * n then Backlog(dbs[0], name, now) - k * n else 0
  {
    if k > 0 {
      PullsDrain(dbs, pulls, name, n, now, k - 1);
      PullsStep(dbs, pulls, name, n, now, k - 1);
      TakeOff(Backlog(dbs[0], name, now), Backlog(dbs[k - 1], name, now), n, k - 1);
    }
  }

  lemma PullsStep(dbs: seq<Db>, pulls: seq<seq<Row>>, name: string, n: int, now: Instant, k: nat)
    requires Pulls(dbs, pulls, name, n, now) && k < |pulls| && Drainable(dbs[k], name)
    ensures Drainable(dbs[k + 1], name)
    ensures var b := Backlog(dbs[k], name, now); Backlog(dbs[k + 1], name, now) <= b - Min(n, b)
  {
    var rows := pulls[k];
    OnePullDrains(dbs[k], dbs[k + 1], name, n, now, rows);
  }

  // ---------- deadlines, seeks and acknowledgements ----------

  /** A deadline change touches exactly the named rows of the subscription: with a number of seconds that is
      not positive they are available at once, otherwise not before that many seconds, at most 600, have passed. */
  lemma DeadlineMeaning(db: Db, name: string, ids: seq<AckId>, seconds: int, now: Instant, later: Instant, a: AckId)
    requires a in db.msgs
    ensures var after := ModifyAckDeadline(db, name, ids, seconds, now);
            && a in after.msgs && after.msgs.Keys == db.msgs.Keys
            && if db.msgs[a].subscription == name && a in ids then
                 (Available(after.msgs[a], name, later) <==> if seconds <= 0 then later > now - SECOND else later > now + Min(seconds, 600) * SECOND)
               else after.msgs[a] == db.msgs[a]
  {
    var after := ModifyAckDeadline(db, name, ids, seconds, now);
    assert after.msgs.Keys == db.msgs.Keys;
  }

  /** After a seek to t, whatever had been leased, a pull at any time sees exactly the subscription's messages
      published at t or later; other subscriptions keep theirs. */
  lemma SeekMeaning(db: Db, name: string, t: Instant, now: Instant, a: AckId)
    ensures var after := SeekTx(db, name, t);
            && (a in AvailableSet(after, name, now) <==> a in db.msgs && db.msgs[a].subscription == name && db.msgs[a].publishTime >= t)
            && (a in db.msgs && db.msgs[a].subscription != name ==> a in after.msgs && after.msgs[a] == db.msgs[a])
            && (a in after.msgs ==> a in db.msgs)
  {
  }

  /** Deleting a subscription takes its backlog with it and leaves every other row. */
  lemma DeleteSubscriptionMeaning(db: Db, name: string, now: Instant, a: AckId)
    ensures var after := DeleteSubscription(db, name);
            && AvailableSet(after, name, now) == {} && name !in after.subs
            && (a in db.msgs && db.msgs[a].subscription != name <==> a in after.msgs)
            && (a in after.msgs ==> after.msgs[a] == db.msgs[a])
  {
  }
}
