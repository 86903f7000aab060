/** The converse of the delivery bound: from any state in which a pull in flight holds an older policy that
    does not cap, the calls can go on so that a message is stored with as many attempts as the limit. */
module PubSubOverrun {
  import opened Basics
  import opened PubSubFilter
  import opened PubSubModel
  import opened PubSubPull
  import opened PubSubRuns
  import opened PubSubInterleaved
  import opened PubSubRefinement
  import opened PubSubBound

  // ---------- a filter can be met ----------

  ghost predicate CanBeMet(lang: Language, filter: string) {
    exists attributes :: lang.matches(filter, attributes)
  }

  /** Every filter that can be stored lets some message through. */
  ghost predicate Meetable(lang: Language) {
    forall f :: f == "" || lang.parses(f) ==> CanBeMet(lang, f)
  }

  lemma OwnMapMatches(filter: string)
    requires ParseFilter(filter).Ok?
    ensures MatchesFilter(filter, ParseFilter(filter).value)
  {
  }

  /** In the store's filter language the attributes a filter writes down meet it. */
  lemma LanguageMeetable()
    ensures Meetable(LANGUAGE)
  {
    forall f | f == "" || LANGUAGE.parses(f) ensures CanBeMet(LANGUAGE, f) {
      EmptyFilterParses();
      OwnMapMatches(f);
      assert LANGUAGE.matches(f, ParseFilter(f).value);
    }
  }

  // ---------- going on while the policy is kept ----------

  /** The clock shows `now` at every statement. */
  ghost predicate At(steps: seq<Step>, now: Instant) {
    forall i :: 0 <= i < |steps| && steps[i].Statement? ==> steps[i].now == now
  }

  /** Steps at this time lead from `s` to `s'`, and the policy is kept all along. */
  ghost predicate Leads(s: Sys, s': Sys, name: string, limit: int, now: Instant) {
    exists steps :: PolicyKept(s, steps, name, limit) && At(steps, now) && Exec(s, steps) == s'
  }

  lemma {:induction false} KeptConcat(s: Sys, a: seq<Step>, b: seq<Step>, name: string, limit: int)
    requires PolicyKept(s, a, name, limit) && PolicyKept(Exec(s, a), b, name, limit)
    ensures PolicyKept(s, a + b, name, limit)
    decreases |a|
  {
    if a == [] {
      assert a + b == b;
    } else {
      assert (a + b)[1..] == a[1..] + b;
      KeptConcat(Next(s, a[0]), a[1..], b, name, limit);
    }
  }

  lemma LeadsOn(s: Sys, s1: Sys, s2: Sys, name: string, limit: int, now: Instant)
    requires Leads(s, s1, name, limit, now) && Leads(s1, s2, name, limit, now)
    ensures Leads(s, s2, name, limit, now)
  {
    var a :| PolicyKept(s, a, name, limit) && At(a, now) && Exec(s, a) == s1;
    var b :| PolicyKept(s1, b, name, limit) && At(b, now) && Exec(s1, b) == s2;
    ExecConcat(s, a, b);
    KeptConcat(s, a, b, name, limit);
  }

  ghost predicate Asks(s: Sys, name: string, limit: int) {
    name in s.db.subs && Limits(s.db.subs[name], limit)
  }

  lemma OneStep(s: Sys, step: Step, name: string, limit: int, now: Instant) returns (s': Sys)
    requires Asks(s, name, limit) && Asks(Next(s, step), name, limit) && (step.Statement? ==> step.now == now)
    ensures s' == Next(s, step) && Leads(s, s', name, limit, now)
  {
    s' := Next(s, step);
    assert [step][1..] == [];
    assert PolicyKept(s', [], name, limit) && At([step], now) && Exec(s', []) == s';
    assert PolicyKept(s, [step], name, limit) && At([step], now) && Exec(s, [step]) == s';
  }

  // ---------- the pieces ----------

  lemma BeginNow(s: Sys, tid: nat, topic: string, attributes: Attributes, name: string, limit: int, now: Instant) returns (s': Sys)
    requires Asks(s, name, limit) && tid !in s.calls && topic in s.db.topics
    ensures Leads(s, s', name, limit, now) && s' == Goto(s, tid, PublishList(topic, [], attributes))
  {
    var s1 := OneStep(s, Start(tid, PublishBegin(topic, [], attributes)), name, limit, now);
    assert s1 == Goto(s, tid, PublishBegin(topic, [], attributes));
    s' := OneStep(s1, Statement(tid, now, []), name, limit, now);
    LeadsOn(s, s1, s', name, limit, now);
  }

  /** A publish of its own, from start to finish. */
  lemma PublishNow(s: Sys, tid: nat, topic: string, attributes: Attributes, name: string, limit: int, now: Instant) returns (s': Sys)
    requires Asks(s, name, limit) && tid !in s.calls && topic in s.db.topics
    ensures Leads(s, s', name, limit, now) && s'.calls == s.calls
    ensures Publish(s.db, topic, [], attributes, now) == Ok(s'.db)
  {
    var s1 := BeginNow(s, tid, topic, attributes, name, limit, now);
    s' := CommitNow(s1, tid, topic, attributes, name, limit, now);
    LeadsOn(s, s1, s', name, limit, now);
    assert s'.calls == s.calls;
  }

  lemma CommitNow(s: Sys, tid: nat, topic: string, attributes: Attributes, name: string, limit: int, now: Instant) returns (s': Sys)
    requires Asks(s, name, limit) && tid in s.calls && s.calls[tid] == PublishList(topic, [], attributes) && topic in s.db.topics
    ensures Leads(s, s', name, limit, now) && s'.calls == s.calls - {tid}
    ensures Publish(s.db, topic, [], attributes, now) == Ok(s'.db)
  {
    ListStep(s, tid, topic, [], attributes, now);
    var s1 := OneStep(s, Statement(tid, now, []), name, limit, now);
    PublishLast(s1, tid, topic, [], attributes, Listing(s.db, topic), now);
    s' := OneStep(s1, Statement(tid, now, []), name, limit, now);
    LeadsOn(s, s1, s', name, limit, now);
    DropCall(s.calls, tid, PublishCommit(topic, [], attributes, Listing(s.db, topic)));
  }

  /** The message waits, alone in its subscription, with this many attempts. */
  ghost predicate Waiting(s: Sys, name: string, a: AckId, attempts: int) {
    && a in s.db.msgs && s.db.msgs[a].subscription == name && !s.db.msgs[a].delivered && s.db.msgs[a].attempts == attempts
    && a < s.db.nextAck && forall b :: b in s.db.msgs && s.db.msgs[b].subscription == name ==> b == a
  }

  /** One failed push, recorded under the policy that is kept. */
  /** The statements by which a push failure reads the policy and the row. */
  lemma PushReads(s: Sys, tid: nat, name: string, a: AckId, limit: int, job: Job, now: Instant) returns (s': Sys)
    requires Asks(s, name, limit) && tid !in s.calls && a in s.db.msgs && s.db.msgs[a].subscription == name && a < s.db.nextAck
    requires job == Job(Counting, name, s.db.subs[name], [Row(a, s.db.msgs[a])], 1)
    ensures Leads(s, s', name, limit, now) && s' == Goto(s, tid, Head(job))
  {
    var s1 := OneStep(s, Start(tid, PushBegin(name, a)), name, limit, now);
    assert s1 == Goto(s, tid, PushBegin(name, a));
    var s2 := OneStep(s1, Statement(tid, now, []), name, limit, now);
    LeadsOn(s, s1, s2, name, limit, now);
    assert s2 == Goto(s1, tid, PushQuery(name, a, s.db.subs[name]));
    s' := OneStep(s2, Statement(tid, now, []), name, limit, now);
    LeadsOn(s, s2, s', name, limit, now);
    assert s' == Goto(s2, tid, Head(job));
  }

  lemma CountOnce(s: Sys, tid: nat, name: string, a: AckId, limit: int, attempts: int, now: Instant) returns (s': Sys)
    requires Asks(s, name, limit) && tid !in s.calls && Waiting(s, name, a, attempts) && attempts + 1 < limit
    ensures Leads(s, s', name, limit, now) && s'.calls == s.calls && Waiting(s', name, a, attempts + 1)
  {
    var job := Job(Counting, name, s.db.subs[name], [Row(a, s.db.msgs[a])], 1);
    var s1 := PushReads(s, tid, name, a, limit, job, now);
    s' := CountHead(s1, tid, name, a, limit, attempts, job, now);
    LeadsOn(s, s1, s', name, limit, now);
    assert s'.calls == s.calls;
  }

  lemma CountHead(s: Sys, tid: nat, name: string, a: AckId, limit: int, attempts: int, job: Job, now: Instant) returns (s': Sys)
    requires Asks(s, name, limit) && Waiting(s, name, a, attempts) && attempts + 1 < limit
    requires tid in s.calls && s.calls[tid] == Head(job)
    requires job == Job(Counting, name, s.db.subs[name], [Row(a, s.db.msgs[a])], 1)
    ensures Leads(s, s', name, limit, now) && s'.calls == s.calls - {tid} && Waiting(s', name, a, attempts + 1)
  {
    var step := Statement(tid, now, []);
    assert Next(s, step) == RunHead(s, tid, job);
    var s1 := OneStep(s, step, name, limit, now);
    assert Next(s1, step) == Finish(s1, tid);
    s' := OneStep(s1, step, name, limit, now);
    LeadsOn(s, s1, s', name, limit, now);
    assert s'.calls == s.calls - {tid};
  }

  lemma {:induction false} CountUp(s: Sys, tid: nat, name: string, a: AckId, limit: int, attempts: int, k: nat, now: Instant) returns (s': Sys)
    requires Asks(s, name, limit) && tid !in s.calls && Waiting(s, name, a, attempts) && attempts + k < limit
    ensures Leads(s, s', name, limit, now) && s'.calls == s.calls && Waiting(s', name, a, attempts + k) && Asks(s', name, limit)
    decreases k
  {
    if k == 0 {
      assert PolicyKept(s, [], name, limit) && At([], now) && Exec(s, []) == s;
      return s;
    }
    var s1 := CountOnce(s, tid, name, a, limit, attempts, now);
    LeadsKeeps(s, s1, name, limit, now);
    s' := CountUp(s1, tid, name, a, limit, attempts + 1, k - 1, now);
    LeadsOn(s, s1, s', name, limit, now);
  }

  lemma {:induction false} KeptAtEnd(s: Sys, steps: seq<Step>, name: string, limit: int)
    requires PolicyKept(s, steps, name, limit)
    ensures Asks(Exec(s, steps), name, limit)
    decreases |steps|
  {
    if steps != [] { KeptAtEnd(Next(s, steps[0]), steps[1..], name, limit); }
  }

  lemma LeadsKeeps(s: Sys, s': Sys, name: string, limit: int, now: Instant)
    requires Leads(s, s', name, limit, now)
    ensures Asks(s', name, limit)
  {
    var steps :| PolicyKept(s, steps, name, limit) && At(steps, now) && Exec(s, steps) == s';
    KeptAtEnd(s, steps, name, limit);
  }

  /** Some list of a finite set of ids. */
  lemma {:induction false} ListOf(ids: set<AckId>) returns (list: seq<AckId>)
    ensures forall b :: b in list <==> b in ids
    decreases ids
  {
    if ids == {} { return []; }
    var b :| b in ids;
    var rest := ListOf(ids - {b});
    list := [b] + rest;
  }

  /** Everything in the subscription but message `a` is acknowledged. */
  lemma LeaveOnly(s: Sys, name: string, a: AckId, limit: int, now: Instant) returns (s': Sys)
    requires Asks(s, name, limit) && a in s.db.msgs && s.db.msgs[a].subscription == name && a < s.db.nextAck
    requires !s.db.msgs[a].delivered && s.db.msgs[a].attempts == 0
    ensures Leads(s, s', name, limit, now) && s'.calls == s.calls && Waiting(s', name, a, 0)
  {
    var list := ListOf(s.db.msgs.Keys - {a});
    s' := OneStep(s, AcknowledgeStep(name, list), name, limit, now);
  }

  /** A message of its own arrives in the subscription. */
  lemma Arrive(s: Sys, tid: nat, name: string, limit: int, now: Instant) returns (s': Sys, a: AckId)
    requires SysOk(s) && Asks(s, name, limit) && tid !in s.calls && Meetable(s.db.lang)
    ensures Leads(s, s', name, limit, now) && s'.calls == s.calls && a >= s.db.nextAck && Waiting(s', name, a, 0)
  {
    var sub := s.db.subs[name];
    assert SubscriptionOk(s.db.lang, sub);
    var s1 := OneStep(s, CreateTopicStep(sub.topic, "p"), name, limit, now);
    NextOk(s, CreateTopicStep(sub.topic, "p"));
    assert s1.db.subs == s.db.subs && s1.db.msgs == s.db.msgs && s1.db.nextAck == s.db.nextAck && s1.db.lang == s.db.lang;
    assert CanBeMet(s.db.lang, sub.filter);
    var attributes :| s.db.lang.matches(sub.filter, attributes);
    var s2 := PublishNow(s1, tid, sub.topic, attributes, name, limit, now);
    LeadsKeeps(s1, s2, name, limit, now);
    a := NewCopyOf(s1.db, s2.db, sub.topic, attributes, name, now);
    s' := LeaveOnly(s2, name, a, limit, now);
    LeadsOn(s, s1, s2, name, limit, now);
    LeadsOn(s, s2, s', name, limit, now);
  }

  lemma NewCopyOf(db: Db, after: Db, topic: string, attributes: Attributes, name: string, now: Instant) returns (a: AckId)
    requires DbOk(db) && Publish(db, topic, [], attributes, now) == Ok(after)
    requires name in db.subs && db.subs[name].topic == topic && db.lang.matches(db.subs[name].filter, attributes)
    ensures a in after.msgs && after.msgs[a].subscription == name && db.nextAck <= a < after.nextAck
    ensures !after.msgs[a].delivered && after.msgs[a].attempts == 0
  {
    PublishAddsOneCopyEach(db, topic, [], attributes, now);
    var copies := NewCopies(db, after, name);
    assert |copies| == 1;
    a :| a in copies;
  }

  /** The pull with the older policy reads the message and leases it once more. */
  lemma StaleLease(s: Sys, tid: nat, n: int, policy: Subscription, name: string, a: AckId, limit: int, now: Instant) returns (s': Sys)
    requires Asks(s, name, limit) && Waiting(s, name, a, limit - 1) && n < TWO63 && SubscriptionOk(s.db.lang, policy)
    requires tid in s.calls && s.calls[tid] == PullQuery(name, n, policy) && !Caps(policy, limit)
    ensures Leads(s, s', name, limit, now) && a in s'.db.msgs && s'.db.msgs[a].subscription == name && s'.db.msgs[a].attempts == limit
  {
    var row := Row(a, s.db.msgs[a]);
    SelectsAlone(s.db, name, a, FetchWindow(PullLimit(n)), now);
    var job := Job(Leasing(LeaseEnd(policy, now)), name, policy, [row], PullLimit(n));
    assert Next(s, Statement(tid, now, [row])) == Goto(s, tid, Head(job));
    var s1 := OneStep(s, Statement(tid, now, [row]), name, limit, now);
    assert !DeadLetters(policy, row.msg);
    assert Next(s1, Statement(tid, now, [])) == RunHead(s1, tid, job);
    s' := OneStep(s1, Statement(tid, now, []), name, limit, now);
    LeadsOn(s, s1, s', name, limit, now);
  }

  lemma SelectsAlone(db: Db, name: string, a: AckId, window: int, now: Instant)
    requires a in db.msgs && db.msgs[a].subscription == name && !db.msgs[a].delivered && window >= 1
    requires forall b :: b in db.msgs && db.msgs[b].subscription == name ==> b == a
    ensures Selected(db, name, now, window, [Row(a, db.msgs[a])])
  {
    var rows := [Row(a, db.msgs[a])];
    assert HasAck(rows, a) by { assert rows[0].ack == a; }
  }

  lemma {:induction false} FreshTid(calls: map<nat, Call>) returns (tid: nat)
    ensures tid !in calls
  {
    var ids := calls.Keys;
    tid := if ids == {} then 0 else MaxOf(ids) + 1;
  }

  /** From here, with the policy kept and the clock at `now`, some message published later comes to `limit`
      stored attempts. */
  ghost predicate CanOverrun(s: Sys, name: string, limit: int, now: Instant) {
    exists steps, a :: PolicyKept(s, steps, name, limit) && At(steps, now) && a >= s.db.nextAck && !Below(Exec(s, steps).db, name, a, limit)
  }

  lemma StalePullOverruns(s: Sys, stale: nat, name: string, limit: int, now: Instant)
    requires SysOk(s) && Asks(s, name, limit) && Meetable(s.db.lang)
    requires stale in s.calls && s.calls[stale].PullQuery? && s.calls[stale].name == name && !Caps(s.calls[stale].policy, limit)
    ensures CanOverrun(s, name, limit, now)
  {
    var call := s.calls[stale];
    assert CallOk(s.db, call) && PolicyOk(s.db.subs[name]);
    var tid := FreshTid(s.calls);
    var s1, a := Arrive(s, tid, name, limit, now);
    LeadsKeeps(s, s1, name, limit, now);
    var s2 := CountUp(s1, tid, name, a, limit, 0, limit - 1, now);
    LangKept(s, s1, s2, name, limit, now);
    var s3 := StaleLease(s2, stale, call.n, call.policy, name, a, limit, now);
    LeadsOn(s, s1, s2, name, limit, now);
    LeadsOn(s, s2, s3, name, limit, now);
    var steps :| PolicyKept(s, steps, name, limit) && At(steps, now) && Exec(s, steps) == s3;
    assert !Below(Exec(s, steps).db, name, a, limit);
  }

  lemma {:induction false} ExecOk(s: Sys, steps: seq<Step>)
    requires SysOk(s)
    ensures SysOk(Exec(s, steps)) && Extends(s.db, Exec(s, steps).db)
    decreases |steps|
  {
    if steps != [] {
      NextOk(s, steps[0]);
      ExecOk(Next(s, steps[0]), steps[1..]);
    }
  }

  lemma LangKept(s: Sys, s1: Sys, s2: Sys, name: string, limit: int, now: Instant)
    requires SysOk(s) && Leads(s, s1, name, limit, now) && Leads(s1, s2, name, limit, now)
    ensures s2.db.lang == s.db.lang
  {
    LeadsOn(s, s1, s2, name, limit, now);
    var steps :| PolicyKept(s, steps, name, limit) && At(steps, now) && Exec(s, steps) == s2;
    ExecOk(s, steps);
  }

  /** The exact condition: however the calls go on while the policy is kept, every message published from now
      on stays below the limit, if and only if no pull in flight holds a policy that does not cap. Otherwise it
      can be brought to the limit without the clock moving, whatever it shows. */
  lemma DeliveryBoundExactly(s: Sys, name: string, limit: int, now: Instant)
    requires SysOk(s) && Meetable(s.db.lang) && name in s.db.subs && Limits(s.db.subs[name], limit)
    ensures NoStalePull(s, name, limit) <==> !CanOverrun(s, name, limit, now)
    ensures NoStalePull(s, name, limit) ==>
              forall steps, a :: PolicyKept(s, steps, name, limit) && a >= s.db.nextAck ==> Below(Exec(s, steps).db, name, a, limit)
  {
    if NoStalePull(s, name, limit) {
      forall steps, a | PolicyKept(s, steps, name, limit) && a >= s.db.nextAck ensures Below(Exec(s, steps).db, name, a, limit) {
        DeliveryBound(s, steps, name, a, limit);
      }
    }
    if CanOverrun(s, name, limit, now) {
      var steps, a :| PolicyKept(s, steps, name, limit) && At(steps, now) && a >= s.db.nextAck && !Below(Exec(s, steps).db, name, a, limit);
      assert !Below(Exec(s, steps).db, name, a, limit);
    }
    if !NoStalePull(s, name, limit) {
      var stale :| stale in s.calls && s.calls[stale].PullQuery? && s.calls[stale].name == name && !Caps(s.calls[stale].policy, limit);
      StalePullOverruns(s, stale, name, limit, now);
    }
  }

  // ---------- an older policy in a history from the start ----------

  const REQUEST: NewSubscription := NewSubscription("s", "t", "p", 10, "", "", 0)
  const BEFORE: Subscription := Subscription("t", "p", 10, "", "", 0)
  const AFTER: Subscription := Subscription("t", "p", 10, "", "d", 5)
  const TO_AFTER: Patch := Patch(None, None, Some(("d", 5)))

  function Empty(lang: Language): Sys {
    Sys(Db(lang, {}, map[], map[], 0, 0), map[])
  }

  lemma EmptyOk(lang: Language)
    ensures SysOk(Empty(lang))
  {
  }

  /** Two topics, and a subscription without a dead-letter policy. */
  lemma Created(lang: Language, now: Instant) returns (s: Sys)
    ensures s == Sys(Db(lang, {"t", "d"}, map["s" := BEFORE], map[], 0, 0), map[])
    ensures exists steps :: Exec(Empty(lang), steps) == s
  {
    var a, b := [CreateTopicStep("t", "p"), CreateTopicStep("d", "p")], Alone(0, CreateBegin(REQUEST), now);
    ExecTwo(Empty(lang), a[0], a[1]);
    var s2 := Exec(Empty(lang), a);
    assert s2.db == Db(lang, {"t", "d"}, map[], map[], 0, 0);
    CreateAlone(s2, 0, REQUEST, now);
    assert CheckedRow(lang, s2.db.topics, s2.db.topics, REQUEST) == Ok(BEFORE);
    ExecConcat(Empty(lang), a, b);
    s := Exec(s2, b);
  }

  /** A pull reads the subscription, and then a dead-letter policy is set. */
  lemma ReadThenUpdated(s: Sys, lang: Language, now: Instant) returns (s': Sys)
    requires s == Sys(Db(lang, {"t", "d"}, map["s" := BEFORE], map[], 0, 0), map[])
    ensures s' == Sys(Db(lang, {"t", "d"}, map["s" := AFTER], map[], 0, 0), map[1 := PullQuery("s", 1, BEFORE)])
    ensures exists steps :: Exec(s, steps) == s'
  {
    var a, b := [Start(1, PullBegin("s", 1)), Statement(1, now, [])], Alone(0, UpdateBegin("s", TO_AFTER), now);
    ExecTwo(s, a[0], a[1]);
    var s2 := Exec(s, a);
    assert s2 == Sys(s.db, map[1 := PullQuery("s", 1, BEFORE)]);
    UpdateAlone(s2, 0, "s", TO_AFTER, now);
    assert Patched(lang, s2.db.topics, BEFORE, TO_AFTER) == Ok(AFTER);
    ExecConcat(s, a, b);
    s' := Exec(s2, b);
  }

  /** From the empty store, calls can come to a state in which a subscription asks for dead-lettering at 5
      attempts and no message has ever been published, and from which, with that policy kept, a message
      published later is stored with 5 attempts: a pull had read the subscription before its policy was set. */
  lemma OlderPolicyBreaksBound(lang: Language, now: Instant) returns (s: Sys)
    requires Meetable(lang)
    ensures SysOk(s) && (exists steps :: Exec(Empty(lang), steps) == s)
    ensures "s" in s.db.subs && Limits(s.db.subs["s"], 5) && s.db.nextAck == 0 && CanOverrun(s, "s", 5, now)
  {
    EmptyOk(lang);
    var s1 := Created(lang, now);
    s := ReadThenUpdated(s1, lang, now);
    var a :| Exec(Empty(lang), a) == s1;
    var b :| Exec(s1, b) == s;
    ExecConcat(Empty(lang), a, b);
    ExecOk(Empty(lang), a + b);
    assert s.calls[1].PullQuery? && !Caps(s.calls[1].policy, 5);
    StalePullOverruns(s, 1, "s", 5, now);
  }
}
