/** The Pub/Sub half of the store: tables updated in place by methods, each tied to the operation of
    PubSubModel that specifies it. */
module PubSubStore {
  import opened Basics
  import opened Text
  import opened Ordering
  import opened PubSubFilter
  import opened PubSubModel
  import opened PubSubRuns

  lemma {:induction false} TargetsSnoc(lang: Language, listing: seq<(string, string)>, attributes: Attributes, last: (string, string))
    ensures Targets(lang, listing + [last], attributes) ==
            Targets(lang, listing, attributes) + (if lang.matches(last.1, attributes) then [last.0] else [])
  {
    if listing == [] {
      assert [] + [last] == [last] && [last][1..] == [];
    } else {
      assert (listing + [last])[1..] == listing[1..] + [last];
      TargetsSnoc(lang, listing[1..], attributes, last);
    }
  }

  lemma TargetsStep(lang: Language, listing: seq<(string, string)>, attributes: Attributes, i: nat)
    requires i < |listing|
    ensures Targets(lang, listing[..i + 1], attributes) ==
            Targets(lang, listing[..i], attributes) + (if lang.matches(listing[i].1, attributes) then [listing[i].0] else [])
  {
    TargetsSnoc(lang, listing[..i], attributes, listing[i]);
    assert listing[..i + 1] == listing[..i] + [listing[i]];
  }

  lemma {:induction false} EarliestExists(s: set<AckId>, msgs: map<AckId, Message>)
    requires s != {} && s <= msgs.Keys
    ensures exists a :: a in s && forall b :: b in s ==> msgs[a].publishTime <= msgs[b].publishTime
    decreases s
  {
    var x :| x in s;
    if s != {x} {
      EarliestExists(s - {x}, msgs);
      var a :| a in s - {x} && forall b :: b in s - {x} ==> msgs[a].publishTime <= msgs[b].publishTime;
      var m := if msgs[a].publishTime <= msgs[x].publishTime then a else x;
      assert forall b :: b in s ==> msgs[m].publishTime <= msgs[b].publishTime;
    } else {
      assert forall b :: b in s ==> b == x;
    }
  }

  /** A request with the white space around its texts removed. */
  function Normal(raw: NewSubscription): NewSubscription {
    raw.(name := TrimSpace(raw.name), topic := TrimSpace(raw.topic), projectId := TrimSpace(raw.projectId),
         filter := TrimSpace(raw.filter), deadLetterTopic := TrimSpace(raw.deadLetterTopic))
  }

  function NormalPatch(raw: Patch): Patch {
    raw.(filter := if raw.filter.Some? then Some(TrimSpace(raw.filter.value)) else None,
         deadLetter := if raw.deadLetter.Some? then Some((TrimSpace(raw.deadLetter.value.0), raw.deadLetter.value.1)) else None)
  }

  predicate TrimmedTo(raw: string, text: string) {
    Trimmed(text) && (Trimmed(raw) ==> text == raw)
  }

  /** Requests reach the tables without the white space around their texts, and otherwise as they were made. */
  lemma RequestsAreTrimmed(raw: NewSubscription, patch: Patch)
    ensures var req := Normal(raw);
            && TrimmedTo(raw.name, req.name) && TrimmedTo(raw.topic, req.topic) && TrimmedTo(raw.projectId, req.projectId)
            && TrimmedTo(raw.filter, req.filter) && TrimmedTo(raw.deadLetterTopic, req.deadLetterTopic)
            && req.ackDeadlineSeconds == raw.ackDeadlineSeconds && req.maxDeliveryAttempts == raw.maxDeliveryAttempts
    ensures var p := NormalPatch(patch);
            && p.ackDeadline == patch.ackDeadline && (p.filter.Some? <==> patch.filter.Some?) && (p.deadLetter.Some? <==> patch.deadLetter.Some?)
            && (p.filter.Some? ==> TrimmedTo(patch.filter.value, p.filter.value))
            && (p.deadLetter.Some? ==> TrimmedTo(patch.deadLetter.value.0, p.deadLetter.value.0) && p.deadLetter.value.1 == patch.deadLetter.value.1)
  {
    TrimText(raw.name);
    TrimText(raw.topic);
    TrimText(raw.projectId);
    TrimText(raw.filter);
    TrimText(raw.deadLetterTopic);
    if patch.filter.Some? { TrimText(patch.filter.value); }
    if patch.deadLetter.Some? { TrimText(patch.deadLetter.value.0); }
  }

  lemma TrimText(raw: string)
    ensures TrimmedTo(raw, TrimSpace(raw))
  {
    TrimSpaceTrims(raw);
    if Trimmed(raw) { TrimSpaceId(raw); }
  }

  class Store {
    /** The filter language; the running store uses PubSubModel.LANGUAGE. */
    const lang: Language
    var topics: set<string>
    var subs: map<string, Subscription>
    var msgs: map<AckId, Message>
    var nextAck: AckId
    var nextId: nat

    ghost function State(): Db
      reads this
    {
      Db(lang, topics, subs, msgs, nextAck, nextId)
    }

    ghost predicate Valid()
      reads this
    {
      DbOk(State())
    }

    constructor (lang: Language)
      ensures this.lang == lang && Valid() && State() == Db(lang, {}, map[], map[], 0, 0)
    {
      this.lang := lang;
      topics, subs, msgs, nextAck, nextId := {}, map[], map[], 0, 0;
    }

    method CreateTopic(rawName: string, rawProject: string) returns (r: Result<bool, Error>)
      requires Valid()
      modifies this
      ensures Valid()
      ensures match PubSubModel.CreateTopic(old(State()), TrimSpace(rawName), TrimSpace(rawProject))
              case Err(e) => r == Err(e) && State() == old(State())
              case Ok(db) => r == Ok(TrimSpace(rawName) !in old(topics)) && State() == db
    {
      var name, project := TrimSpace(rawName), TrimSpace(rawProject);
      if name == "" || project == "" { return Err(NameRequired); }
      r := Ok(name !in topics);
      topics := topics + {name};
    }

    method DeleteTopic(name: string) returns (found: bool)
      requires Valid()
      modifies this
      ensures Valid() && found == (name in old(topics)) && State() == PubSubModel.DeleteTopic(old(State()), name)
    {
      found := name in topics;
      topics := topics - {name};
    }

    method CreateSubscription(raw: NewSubscription) returns (r: Result<bool, Error>)
      requires Valid()
      modifies this
      ensures Valid()
      ensures var req := Normal(raw);
              match PubSubModel.CreateSubscription(old(State()), req)
              case Err(e) => r == Err(e) && State() == old(State())
              case Ok(db) => r == Ok(req.name !in old(subs)) && State() == db
    {
      var req := Normal(raw);
      SubscriptionWritten(State(), CreateSubscriptionOp(req));
      if req.name == "" || req.topic == "" || req.projectId == "" { return Err(NameRequired); }
      var ackDeadlineSeconds := req.ackDeadlineSeconds;
      if ackDeadlineSeconds <= 0 { ackDeadlineSeconds := 10; }
      if req.filter != "" && !lang.parses(req.filter) { return Err(InvalidFilter); }
      var policy := CheckPolicy(req.deadLetterTopic, req.maxDeliveryAttempts);
      if policy.Err? { return Err(policy.error); }
      if req.topic !in topics { return Err(TopicNotFound); }
      if req.name in subs { return Ok(false); }
      subs := subs[req.name := Subscription(req.topic, req.projectId, ackDeadlineSeconds, req.filter, policy.value.0, policy.value.1)];
      r := Ok(true);
    }

    /** The dead-letter checks that creation and update share. */
    method CheckPolicy(deadLetterTopic: string, attempts: int) returns (r: Result<(string, int), Error>)
      ensures r == CheckedPolicy(topics, deadLetterTopic, attempts)
    {
      if deadLetterTopic == "" { return Ok(("", 0)); }
      if deadLetterTopic !in topics { return Err(DeadLetterTopicNotFound); }
      var limit := attempts;
      if limit == 0 { limit := 5; }
      if limit < 5 || limit > 100 { return Err(AttemptsOutOfRange); }
      r := Ok((deadLetterTopic, limit));
    }

    method UpdateSubscription(name: string, raw: Patch) returns (r: Result<Subscription, Error>)
      requires Valid()
      modifies this
      ensures Valid()
      ensures match PubSubModel.UpdateSubscription(old(State()), name, NormalPatch(raw))
              case Err(e) => r == Err(e) && State() == old(State())
              case Ok(db) => State() == db && name in subs && r == Ok(subs[name])
    {
      var patch := NormalPatch(raw);
      SubscriptionWritten(State(), UpdateSubscriptionOp(name, patch));
      if name !in subs { return Err(SubscriptionNotFound); }
      var sub := subs[name];
      if patch.ackDeadline.Some? {
        sub := sub.(ackDeadlineSeconds := if patch.ackDeadline.value <= 0 then 10 else patch.ackDeadline.value);
      }
      if patch.filter.Some? {
        if patch.filter.value != "" && !lang.parses(patch.filter.value) { return Err(InvalidFilter); }
        sub := sub.(filter := patch.filter.value);
      }
      if patch.deadLetter.Some? {
        var policy := CheckPolicy(patch.deadLetter.value.0, patch.deadLetter.value.1);
        if policy.Err? { return Err(policy.error); }
        sub := sub.(deadLetterTopic := policy.value.0, maxDeliveryAttempts := policy.value.1);
      }
      subs := subs[name := sub];
      r := Ok(sub);
    }

    method DeleteSubscription(name: string) returns (found: bool)
      requires Valid()
      modifies this
      ensures Valid() && found == (name in old(subs)) && State() == PubSubModel.DeleteSubscription(old(State()), name)
    {
      found := name in subs;
      msgs := map a | a in msgs && msgs[a].subscription != name :: msgs[a];
      subs := subs - {name};
    }

    method ListForTopic(topic: string) returns (listing: seq<(string, string)>)
      ensures listing == Listing(State(), topic)
    {
      var names := SortedSeq(set n | n in subs && subs[n].topic == topic);
      listing := [];
      for i := 0 to |names|
        invariant |listing| == i && forall k :: 0 <= k < i ==> listing[k] == Listing(State(), topic)[k]
      {
        assert names[i] in names && names == TopicSubs(State(), topic);
        listing := listing + [(names[i], subs[names[i]].filter)];
      }
    }

    method PublishFanout(topic: string, data: Bytes, attributes: Attributes, now: Instant) returns (r: Result<seq<Row>, Error>)
      requires Valid()
      modifies this
      ensures Valid()
      ensures match Publish(old(State()), topic, data, attributes, now)
              case Err(e) => r == Err(e) && State() == old(State())
              case Ok(db) => State() == db && r.Ok? && CopiesOf(old(State()), topic, data, attributes, now, r.value)
    {
      PublishAdvances(State(), topic, data, attributes, now);
      if topic !in topics { return Err(TopicNotFound); }
      var targets := SelectTargets(topic, attributes);
      var copies := InsertCopies(topic, data, attributes, now, targets);
      r := Ok(copies);
    }

    /** The subscriptions of the topic whose filter the attributes pass. */
    method SelectTargets(topic: string, attributes: Attributes) returns (targets: seq<string>)
      ensures targets == Targets(lang, Listing(State(), topic), attributes)
    {
      var listing := ListForTopic(topic);
      targets := [];
      for i := 0 to |listing|
        invariant targets == Targets(lang, listing[..i], attributes)
      {
        TargetsStep(lang, listing, attributes, i);
        if lang.matches(listing[i].1, attributes) { targets := targets + [listing[i].0]; }
      }
      assert listing[..|listing|] == listing;
    }

    /** The transaction: one row per target, all of them or none. */
    method InsertCopies(topic: string, data: Bytes, attributes: Attributes, now: Instant, targets: seq<string>) returns (rows: seq<Row>)
      modifies this
      ensures State() == Commit(old(State()), topic, data, attributes, now, targets)
      ensures rows == RowsOf(old(nextAck), Copies(old(State()), topic, data, attributes, now, targets))
    {
      var copies: seq<Message> := [];
      ghost var db := State();
      for i := 0 to |targets|
        invariant State() == db && |copies| == i
        invariant forall k :: 0 <= k < i ==> copies[k] == Copy(db, topic, data, attributes, now, targets[k])
      {
        copies := copies + [Message(nextId, targets[i], topic, data, attributes, now, false, None, 0)];
      }
      assert copies == Copies(db, topic, data, attributes, now, targets);
      rows := RowsOf(nextAck, copies);
      msgs, nextAck, nextId := InsertRows(msgs, nextAck, copies), nextAck + |copies|, nextId + 1;
    }

    /** The rows a Pull's SELECT returns. */
    method SelectAvailable(name: string, now: Instant, window: int) returns (rows: seq<Row>)
      requires window >= 0
      ensures Selected(State(), name, now, window, rows)
    {
      var left := set a | a in msgs && Available(msgs[a], name, now);
      ghost var all := left;
      rows := [];
      while |rows| < window && left != {}
        invariant |rows| <= window && Picking(msgs, all, left, rows)
      {
        EarliestExists(left, msgs);
        var a :| a in left && forall b :: b in left ==> msgs[a].publishTime <= msgs[b].publishTime;
        PickOne(msgs, all, left, rows, a);
        rows := rows + [Row(a, msgs[a])];
        left := left - {a};
      }
    }

    method Pull(name: string, maxMessages: int, now: Instant) returns (r: Result<seq<Row>, Error>, ghost rows: seq<Row>)
      requires Valid() && maxMessages < TWO63
      modifies this
      ensures Valid()
      ensures name !in old(subs) ==> r == Err(SubscriptionNotFound) && State() == old(State())
      ensures name in old(subs) ==>
                && Selected(old(State()), name, now, FetchWindow(PullLimit(maxMessages)), rows)
                && var out := PubSubModel.Pull(old(State()), name, maxMessages, now, rows);
                   State() == out.db && r == if out.failed then Err(DeadLetterPublishFailed) else Ok(out.leased)
    {
      rows := [];
      var limit := if maxMessages <= 0 then 1 else maxMessages;
      if name !in subs { return Err(SubscriptionNotFound), []; }
      var policy := subs[name];
      var window := FetchWindow(limit);
      var candidates := SelectAvailable(name, now, window);
      rows := candidates;
      var deadline := LeaseEnd(policy, now);
      r := Work(name, policy, deadline, now, candidates, limit);
    }

    /** The loop over the candidates. */
    method Work(name: string, policy: Subscription, deadline: Instant, now: Instant, candidates: seq<Row>, limit: int)
      returns (r: Result<seq<Row>, Error>)
      requires Valid()
      modifies this
      ensures Valid()
      ensures var out := WorkRows(old(State()), name, policy, deadline, now, candidates, limit);
              State() == out.db && r == if out.failed then Err(DeadLetterPublishFailed) else Ok(out.leased)
    {
      var out: seq<Row> := [];
      var i := 0;
      ghost var whole := WorkRows(State(), name, policy, deadline, now, candidates, limit);
      ghost var rest := whole;
      assert candidates[0..] == candidates;
      while i < |candidates| && |out| < limit
        invariant 0 <= i <= |candidates| && Valid() && Continues(whole, out, rest)
        invariant Remaining(State(), name, policy, deadline, now, candidates, i, limit - |out|, rest)
      {
        ghost var next := RemainingStep(State(), name, policy, deadline, now, candidates, i, limit - |out|, rest);
        var lease := TakeTurn(name, policy, deadline, now, candidates[i]);
        if lease.Err? { return Err(DeadLetterPublishFailed); }
        ContinuesOn(whole, out, lease.value, next);
        out, i, rest := out + lease.value, i + 1, next;
      }
      assert out + [] == out;
      r := Ok(out);
    }

    /** One candidate's turn: dead-letter it or lease it. */
    method TakeTurn(name: string, policy: Subscription, deadline: Instant, now: Instant, row: Row) returns (r: Result<seq<Row>, Error>)
      requires Valid()
      modifies this
      ensures Valid()
      ensures match Turn(old(State()), name, policy, deadline, now, row)
              case Err(_) => r.Err? && State() == old(State())
              case Ok(db) => State() == db && r == Ok(TurnLease(policy, deadline, row))
    {
      TurnAdvances(State(), name, policy, deadline, now, row);
      if DeadLetters(policy, row.msg) {
        var moved := MoveToDeadLetterTopic(name, policy, row, now);
        return if moved then Ok([]) else Err(DeadLetterPublishFailed);
      }
      var attempts := row.msg.attempts + 1;
      if row.ack in msgs {
        msgs := msgs[row.ack := msgs[row.ack].(delivered := true, ackDeadline := Some(deadline), attempts := attempts)];
      }
      r := Ok([row.(msg := row.msg.(delivered := true, ackDeadline := Some(deadline), attempts := attempts))]);
    }

    method MoveToDeadLetterTopic(name: string, policy: Subscription, row: Row, now: Instant) returns (moved: bool)
      requires Valid()
      modifies this
      ensures Valid()
      ensures match DeadLetter(old(State()), name, policy, row, now)
              case Err(_) => !moved && State() == old(State())
              case Ok(db) => moved && State() == db
    {
      var published := PublishFanout(policy.deadLetterTopic, row.msg.data, row.msg.attributes[SOURCE := name], now);
      if published.Err? { return false; }
      msgs := msgs - {row.ack};
      moved := true;
    }

    method RecordPushDeliveryFailure(name: string, ack: AckId, now: Instant) returns (r: Result<bool, Error>)
      requires Valid()
      modifies this
      ensures Valid()
      ensures var out := PushFailure(old(State()), name, ack, now);
              State() == out.db && r == if out.failed then Err(DeadLetterPublishFailed) else Ok(out.deadLettered)
    {
      if name !in subs || ack !in msgs || msgs[ack].subscription != name { return Ok(false); }
      var policy, m := subs[name], msgs[ack];
      if DeadLetters(policy, m) {
        var moved := MoveToDeadLetterTopic(name, policy, Row(ack, m), now);
        return if moved then Ok(true) else Err(DeadLetterPublishFailed);
      }
      msgs := msgs[ack := m.(attempts := m.attempts + 1)];
      r := Ok(false);
    }

    method Acknowledge(name: string, ids: seq<AckId>)
      requires Valid()
      modifies this
      ensures Valid() && State() == PubSubModel.Acknowledge(old(State()), name, ids)
    {
      ghost var db := State();
      for i := 0 to |ids|
        invariant State() == PubSubModel.Acknowledge(db, name, ids[..i])
      {
        if ids[i] in msgs && msgs[ids[i]].subscription == name { msgs := msgs - {ids[i]}; }
      }
      assert ids[..|ids|] == ids;
    }

    method ModifyAckDeadline(name: string, ids: seq<AckId>, seconds: int, now: Instant)
      requires Valid()
      modifies this
      ensures Valid() && State() == PubSubModel.ModifyAckDeadline(old(State()), name, ids, seconds, now)
    {
      ghost var db := State();
      var clamped := if seconds < 0 then 0 else if seconds > 600 then 600 else seconds;
      var deadline := if clamped == 0 then now - SECOND else now + clamped * SECOND;
      for i := 0 to |ids|
        invariant State() == PubSubModel.ModifyAckDeadline(db, name, ids[..i], seconds, now)
      {
        DeadlineSnoc(db, name, ids, i, seconds, now);
        if ids[i] in msgs && msgs[ids[i]].subscription == name {
          msgs := msgs[ids[i] := msgs[ids[i]].(delivered := true, ackDeadline := Some(deadline))];
        }
      }
      assert ids[..|ids|] == ids;
    }

    method SeekToTime(name: string, t: Instant) returns (r: Result<(), Error>)
      requires Valid()
      modifies this
      ensures Valid()
      ensures match Seek(old(State()), name, t)
              case Err(e) => r == Err(e) && State() == old(State())
              case Ok(db) => r == Ok(()) && State() == db
    {
      if name !in subs { return Err(SubscriptionNotFound); }
      ghost var db := State();
      msgs := map a | a in msgs && !(msgs[a].subscription == name && msgs[a].publishTime < t) :: msgs[a];
      msgs := map a | a in msgs :: if msgs[a].subscription == name then msgs[a].(delivered := false, ackDeadline := None) else msgs[a];
      assert msgs == SeekTx(db, name, t).msgs;
      r := Ok(());
    }
  }

  /** Rows with consecutive ack ids. */
  function RowsOf(ack: AckId, copies: seq<Message>): seq<Row> {
    seq(|copies|, k requires 0 <= k < |copies| => Row(ack + k, copies[k]))
  }

  ghost predicate CopiesOf(db: Db, topic: string, data: Bytes, attributes: Attributes, now: Instant, rows: seq<Row>) {
    rows == RowsOf(db.nextAck, Copies(db, topic, data, attributes, now, Targets(db.lang, Listing(db, topic), attributes)))
  }

  /** `rows` are the earliest of `all`, in order, and `left` is the rest. */
  ghost predicate Picking(msgs: map<AckId, Message>, all: set<AckId>, left: set<AckId>, rows: seq<Row>) {
    && left <= all <= msgs.Keys
    && (forall i :: 0 <= i < |rows| ==> rows[i].ack in all && rows[i].ack !in left && msgs[rows[i].ack] == rows[i].msg)
    && (forall i, j :: 0 <= i < j < |rows| ==> rows[i].ack != rows[j].ack && rows[i].msg.publishTime <= rows[j].msg.publishTime)
    && (forall a :: a in all && a !in left ==> HasAck(rows, a))
    && (forall a, i :: a in left && 0 <= i < |rows| ==> rows[i].msg.publishTime <= msgs[a].publishTime)
  }

  lemma PickOne(msgs: map<AckId, Message>, all: set<AckId>, left: set<AckId>, rows: seq<Row>, a: AckId)
    requires Picking(msgs, all, left, rows)
    requires a in left && forall b :: b in left ==> msgs[a].publishTime <= msgs[b].publishTime
    ensures Picking(msgs, all, left - {a}, rows + [Row(a, msgs[a])])
  {
    var more := rows + [Row(a, msgs[a])];
    forall b | b in all && b !in left - {a} ensures HasAck(more, b) {
      if b == a {
        assert more[|rows|].ack == b;
      } else {
        var i :| 0 <= i < |rows| && rows[i].ack == b;
        assert more[i].ack == b;
      }
    }
  }

  /** `rest` is what the loop still has to do, `out` what it has leased so far. */
  ghost predicate Continues(whole: PullOutcome, out: seq<Row>, rest: PullOutcome) {
    whole.db == rest.db && whole.failed == rest.failed && (!whole.failed ==> whole.leased == out + rest.leased)
  }

  lemma ContinuesOn(whole: PullOutcome, out: seq<Row>, lease: seq<Row>, rest: PullOutcome)
    requires Continues(whole, out, rest.(leased := if rest.failed then [] else lease + rest.leased))
    ensures Continues(whole, out + lease, rest)
  {
    assert out + (lease + rest.leased) == out + lease + rest.leased;
  }

  ghost predicate Remaining(db: Db, name: string, policy: Subscription, deadline: Instant, now: Instant, rows: seq<Row>, i: nat, room: int, rest: PullOutcome)
    requires i <= |rows|
  {
    rest == WorkRows(db, name, policy, deadline, now, rows[i..], room)
  }

  lemma RemainingStep(db: Db, name: string, policy: Subscription, deadline: Instant, now: Instant, rows: seq<Row>, i: nat, room: int, rest: PullOutcome)
    returns (next: PullOutcome)
    requires i < |rows| && room > 0 && Remaining(db, name, policy, deadline, now, rows, i, room, rest)
    ensures match Turn(db, name, policy, deadline, now, rows[i])
            case Err(_) => rest == PullOutcome(db, [], true)
            case Ok(db') =>
              var lease := TurnLease(policy, deadline, rows[i]);
              && Remaining(db', name, policy, deadline, now, rows, i + 1, room - |lease|, next)
              && rest == next.(leased := if next.failed then [] else lease + next.leased)
  {
    assert rows[i..][0] == rows[i] && rows[i..][1..] == rows[i + 1..];
    next := rest;
    var turn := Turn(db, name, policy, deadline, now, rows[i]);
    if turn.Ok? {
      next := WorkRows(turn.value, name, policy, deadline, now, rows[i + 1..], room - |TurnLease(policy, deadline, rows[i])|);
    }
  }

  lemma DeadlineSnoc(db: Db, name: string, ids: seq<AckId>, i: nat, seconds: int, now: Instant)
    requires i < |ids|
    ensures var before := PubSubModel.ModifyAckDeadline(db, name, ids[..i], seconds, now).msgs;
            var after := PubSubModel.ModifyAckDeadline(db, name, ids[..i + 1], seconds, now).msgs;
            after == if ids[i] in before && before[ids[i]].subscription == name
                     then before[ids[i] := before[ids[i]].(delivered := true, ackDeadline := Some(NewDeadline(seconds, now)))]
                     else before
  {
    assert ids[..i + 1] == ids[..i] + [ids[i]];
  }
}
