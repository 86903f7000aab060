/** Topics, subscriptions and queued messages as tables, the SQL statements the store runs on
    them, and the store's operations as compositions of those statements. */
module PubSubModel {
  import opened Basics
  import opened Ordering
  import opened PubSubFilter

  /** Ack ids stand for UUIDs: values drawn once and never again. */
  type AckId = nat

  datatype Subscription = Subscription(
    topic: string, projectId: string, ackDeadlineSeconds: int, filter: string,
    deadLetterTopic: string, maxDeliveryAttempts: int)

  datatype Message = Message(
    id: nat, subscription: string, topic: string, data: Bytes, attributes: Attributes, publishTime: Instant,
    delivered: bool, ackDeadline: Option<Instant>, attempts: int)

  /** A message row as read by a SELECT. */
  datatype Row = Row(ack: AckId, msg: Message)

  /** The filter language subscriptions are written in. The queue works the same for any such language; the
      one the store uses is `LANGUAGE`. */
  datatype Language = Language(parses: string -> bool, matches: (string, Attributes) -> bool)

  const LANGUAGE: Language := Language(f => ParseFilter(f).Ok?, (f, attributes) => MatchesFilter(f, attributes))

  datatype Db = Db(
    lang: Language, topics: set<string>, subs: map<string, Subscription>, msgs: map<AckId, Message>,
    nextAck: AckId, nextId: nat)

  datatype Error =
    | NameRequired | InvalidFilter | DeadLetterTopicNotFound | AttemptsOutOfRange
    | TopicNotFound | SubscriptionNotFound | DeadLetterPublishFailed

  const SOURCE: string := "CloudPubSubDeadLetterSourceSubscription"

  // ---------- invariant ----------

  predicate PolicyOk(sub: Subscription) {
    || (sub.deadLetterTopic == "" && sub.maxDeliveryAttempts == 0)
    || (sub.deadLetterTopic != "" && 5 <= sub.maxDeliveryAttempts <= 100)
  }

  predicate SubscriptionOk(lang: Language, sub: Subscription) {
    PolicyOk(sub) && sub.topic != "" && sub.ackDeadlineSeconds > 0 && (sub.filter == "" || lang.parses(sub.filter))
  }

  ghost predicate DbOk(db: Db) {
    && (forall a :: a in db.msgs ==> a < db.nextAck)
    && (forall n :: n in db.subs ==> SubscriptionOk(db.lang, db.subs[n]))
  }

  // ---------- publishing ----------

  /** SELECT ... FROM pubsub_subscriptions WHERE topic = ? ORDER BY name: names and filters. */
  function Listing(db: Db, topic: string): (r: seq<(string, string)>)
    ensures |r| == |TopicSubs(db, topic)|
    ensures forall i :: 0 <= i < |r| ==> r[i].0 == TopicSubs(db, topic)[i] && r[i].0 in db.subs && r[i].1 == db.subs[r[i].0].filter
  {
    var names := TopicSubs(db, topic);
    assert forall i :: 0 <= i < |names| ==> names[i] in db.subs;
    seq(|names|, i requires 0 <= i < |names| => (names[i], db.subs[names[i]].filter))
  }

  function TopicSubs(db: Db, topic: string): (r: seq<string>)
    ensures forall n :: n in r <==> n in db.subs && db.subs[n].topic == topic
    ensures Increasing(r)
  {
    SortedSeq(set n | n in db.subs && db.subs[n].topic == topic)
  }

  /** The listed subscriptions whose filter the attributes pass. */
  function Targets(lang: Language, listing: seq<(string, string)>, attributes: Attributes): (r: seq<string>)
    ensures |r| <= |listing|
  {
    if listing == [] then []
    else (if lang.matches(listing[0].1, attributes) then [listing[0].0] else []) + Targets(lang, listing[1..], attributes)
  }

  function Copy(db: Db, topic: string, data: Bytes, attributes: Attributes, now: Instant, target: string): Message {
    Message(db.nextId, target, topic, data, attributes, now, false, None, 0)
  }

  function Copies(db: Db, topic: string, data: Bytes, attributes: Attributes, now: Instant, targets: seq<string>): (r: seq<Message>)
    ensures |r| == |targets| && forall i :: 0 <= i < |r| ==> r[i] == Copy(db, topic, data, attributes, now, targets[i])
  {
    seq(|targets|, i requires 0 <= i < |targets| => Copy(db, topic, data, attributes, now, targets[i]))
  }

  function FreshAcks(from: AckId, count: nat): (r: set<AckId>)
    ensures forall a :: a in r <==> from <= a < from + count
  {
    if count == 0 then {} else FreshAcks(from, count - 1) + {from + count - 1}
  }

  /** The table with the copies added under the ack ids from `ack` on. */
  function InsertRows(msgs: map<AckId, Message>, ack: AckId, copies: seq<Message>): map<AckId, Message> {
    msgs + map a | a in FreshAcks(ack, |copies|) :: copies[a - ack]
  }

  /** The transaction that inserts one copy per target. */
  function Commit(db: Db, topic: string, data: Bytes, attributes: Attributes, now: Instant, targets: seq<string>): Db {
    db.(msgs := InsertRows(db.msgs, db.nextAck, Copies(db, topic, data, attributes, now, targets)),
        nextAck := db.nextAck + |targets|,
        nextId := db.nextId + 1)
  }

  function Publish(db: Db, topic: string, data: Bytes, attributes: Attributes, now: Instant): Result<Db, Error> {
    if topic !in db.topics then Err(TopicNotFound)
    else Ok(Commit(db, topic, data, attributes, now, Targets(db.lang, Listing(db, topic), attributes)))
  }

  // ---------- row statements ----------

  function DeleteRow(db: Db, a: AckId): Db {
    db.(msgs := db.msgs - {a})
  }

  function SetLease(db: Db, a: AckId, deadline: Instant, attempts: int): Db {
    if a in db.msgs
    then db.(msgs := db.msgs[a := db.msgs[a].(delivered := true, ackDeadline := Some(deadline), attempts := attempts)])
    else db
  }

  function SetAttempts(db: Db, a: AckId, attempts: int): Db {
    if a in db.msgs then db.(msgs := db.msgs[a := db.msgs[a].(attempts := attempts)]) else db
  }

  // ---------- pull ----------

  predicate Available(m: Message, name: string, now: Instant) {
    m.subscription == name && (!m.delivered || m.ackDeadline.None? || m.ackDeadline.value < now)
  }

  function AvailableSet(db: Db, name: string, now: Instant): set<AckId> {
    set a | a in db.msgs && Available(db.msgs[a], name, now)
  }

  /** How many rows the SELECT asks for; four times the request unless that overflows. */
  function FetchWindow(n: int): (w: int)
    requires 0 < n < TWO63
    ensures n <= w
  {
    var w := Wrap64(n * 4);
    if w < n then n else w
  }

  ghost predicate Read(db: Db, rows: seq<Row>) {
    && (forall i :: 0 <= i < |rows| ==> rows[i].ack in db.msgs && db.msgs[rows[i].ack] == rows[i].msg)
    && DistinctAcks(rows)
  }

  ghost predicate DistinctAcks(rows: seq<Row>) {
    forall i, j :: 0 <= i < j < |rows| ==> rows[i].ack != rows[j].ack
  }

  predicate HasAck(rows: seq<Row>, a: AckId) {
    exists i :: 0 <= i < |rows| && rows[i].ack == a
  }

  /** SELECT ... WHERE available ORDER BY publish_time LIMIT window. Rows published at the same
      instant may come in any order. */
  ghost predicate Selected(db: Db, name: string, now: Instant, window: int, rows: seq<Row>) {
    && Read(db, rows) && |rows| <= window
    && (forall i :: 0 <= i < |rows| ==> Available(rows[i].msg, name, now))
    && (forall i, j :: 0 <= i < j < |rows| ==> rows[i].msg.publishTime <= rows[j].msg.publishTime)
    && (forall a :: a in AvailableSet(db, name, now) && !HasAck(rows, a) ==>
          |rows| == window && forall i :: 0 <= i < |rows| ==> rows[i].msg.publishTime <= db.msgs[a].publishTime)
  }

  /** One more delivery would reach the limit of the dead-letter policy. */
  predicate DeadLetters(policy: Subscription, m: Message) {
    policy.deadLetterTopic != "" && policy.maxDeliveryAttempts > 0 && m.attempts + 1 >= policy.maxDeliveryAttempts
  }

  function Leased(row: Row, deadline: Instant): Row {
    row.(msg := row.msg.(delivered := true, ackDeadline := Some(deadline), attempts := row.msg.attempts + 1))
  }

  /** Publish the message to the dead-letter topic, then delete it from its subscription. */
  function DeadLetter(db: Db, name: string, policy: Subscription, row: Row, now: Instant): Result<Db, Error> {
    match Publish(db, policy.deadLetterTopic, row.msg.data, row.msg.attributes[SOURCE := name], now)
    case Err(_) => Err(DeadLetterPublishFailed)
    case Ok(db') => Ok(DeleteRow(db', row.ack))
  }

  /** One candidate's turn in the loop. */
  function Turn(db: Db, name: string, policy: Subscription, deadline: Instant, now: Instant, row: Row): Result<Db, Error> {
    if DeadLetters(policy, row.msg) then DeadLetter(db, name, policy, row, now)
    else Ok(SetLease(db, row.ack, deadline, row.msg.attempts + 1))
  }

  /** What the caller gets back from one turn. */
  function TurnLease(policy: Subscription, deadline: Instant, row: Row): (r: seq<Row>)
    ensures |r| == if DeadLetters(policy, row.msg) then 0 else 1
  {
    if DeadLetters(policy, row.msg) then [] else [Leased(row, deadline)]
  }

  datatype PullOutcome = PullOutcome(db: Db, leased: seq<Row>, failed: bool)

  /** The loop over the candidate rows, with room for `room` more leases. A failed publish loses the
      leases already taken: the caller gets an error and no messages. */
  function WorkRows(db: Db, name: string, policy: Subscription, deadline: Instant, now: Instant, rows: seq<Row>, room: int): PullOutcome
    decreases |rows|
  {
    if rows == [] || room <= 0 then PullOutcome(db, [], false)
    else
      match Turn(db, name, policy, deadline, now, rows[0])
      case Err(_) => PullOutcome(db, [], true)
      case Ok(db') =>
        var lease := TurnLease(policy, deadline, rows[0]);
        var rest := WorkRows(db', name, policy, deadline, now, rows[1..], room - |lease|);
        rest.(leased := if rest.failed then [] else lease + rest.leased)
  }

  function LeaseEnd(policy: Subscription, now: Instant): Instant {
    now + Seconds(policy.ackDeadlineSeconds)
  }

  function PullLimit(maxMessages: int): int {
    if maxMessages <= 0 then 1 else maxMessages
  }

  function Pull(db: Db, name: string, maxMessages: int, now: Instant, rows: seq<Row>): PullOutcome
    requires name in db.subs
  {
    var policy := db.subs[name];
    WorkRows(db, name, policy, LeaseEnd(policy, now), now, rows, PullLimit(maxMessages))
  }

  // ---------- failed push ----------

  datatype PushOutcome = PushOutcome(db: Db, deadLettered: bool, failed: bool)

  function PushFailure(db: Db, name: string, a: AckId, now: Instant): PushOutcome {
    if name !in db.subs || a !in db.msgs || db.msgs[a].subscription != name then PushOutcome(db, false, false)
    else
      var policy, m := db.subs[name], db.msgs[a];
      if DeadLetters(policy, m) then
        match DeadLetter(db, name, policy, Row(a, m), now)
        case Err(_) => PushOutcome(db, false, true)
        case Ok(db') => PushOutcome(db', true, false)
      else PushOutcome(SetAttempts(db, a, m.attempts + 1), false, false)
  }

  // ---------- acknowledging, deadlines, seek ----------

  function Acknowledge(db: Db, name: string, ids: seq<AckId>): Db {
    db.(msgs := map a | a in db.msgs && !(db.msgs[a].subscription == name && a in ids) :: db.msgs[a])
  }

  function NewDeadline(seconds: int, now: Instant): Instant {
    if seconds <= 0 then now - SECOND
    else if seconds > 600 then now + 600 * SECOND
    else now + seconds * SECOND
  }

  function ModifyAckDeadline(db: Db, name: string, ids: seq<AckId>, seconds: int, now: Instant): Db {
    db.(msgs := map a | a in db.msgs ::
                  if db.msgs[a].subscription == name && a in ids
                  then db.msgs[a].(delivered := true, ackDeadline := Some(NewDeadline(seconds, now)))
                  else db.msgs[a])
  }

  /** The transaction of SeekToTime. */
  function SeekTx(db: Db, name: string, t: Instant): Db {
    db.(msgs := map a | a in db.msgs && !(db.msgs[a].subscription == name && db.msgs[a].publishTime < t) ::
                  if db.msgs[a].subscription == name
                  then db.msgs[a].(delivered := false, ackDeadline := None)
                  else db.msgs[a])
  }

  function Seek(db: Db, name: string, t: Instant): Result<Db, Error> {
    if name !in db.subs then Err(SubscriptionNotFound) else Ok(SeekTx(db, name, t))
  }

  // ---------- topics and subscriptions ----------

  function CreateTopic(db: Db, name: string, project: string): Result<Db, Error> {
    if name == "" || project == "" then Err(NameRequired) else Ok(db.(topics := db.topics + {name}))
  }

  function DeleteTopic(db: Db, name: string): Db {
    db.(topics := db.topics - {name})
  }

  function AckSeconds(seconds: int): int {
    if seconds <= 0 then 10 else seconds
  }

  /** The dead-letter columns a request asks for, as stored. */
  function CheckedPolicy(topics: set<string>, topic: string, attempts: int): (r: Result<(string, int), Error>)
    ensures r.Ok? ==> (r.value.0 == "" && r.value.1 == 0) || (r.value.0 in topics && r.value.0 != "" && 5 <= r.value.1 <= 100)
  {
    if topic == "" then Ok(("", 0))
    else if topic !in topics then Err(DeadLetterTopicNotFound)
    else
      var limit := if attempts == 0 then 5 else attempts;
      if limit < 5 || limit > 100 then Err(AttemptsOutOfRange) else Ok((topic, limit))
  }

  /** A creation request, its texts already trimmed. */
  datatype NewSubscription = NewSubscription(
    name: string, topic: string, projectId: string, ackDeadlineSeconds: int, filter: string,
    deadLetterTopic: string, maxDeliveryAttempts: int)

  /** The row a creation request turns into, or why it is refused. The two topic look-ups are separate
      statements, so they may see different tables. */
  function CheckedRow(lang: Language, deadLetterTopics: set<string>, topics: set<string>, req: NewSubscription): (r: Result<Subscription, Error>)
    ensures r.Ok? ==> SubscriptionOk(lang, r.value)
  {
    if req.name == "" || req.topic == "" || req.projectId == "" then Err(NameRequired)
    else if req.filter != "" && !lang.parses(req.filter) then Err(InvalidFilter)
    else
      match CheckedPolicy(deadLetterTopics, req.deadLetterTopic, req.maxDeliveryAttempts)
      case Err(e) => Err(e)
      case Ok(policy) =>
        if req.topic !in topics then Err(TopicNotFound)
        else Ok(Subscription(req.topic, req.projectId, AckSeconds(req.ackDeadlineSeconds), req.filter, policy.0, policy.1))
  }

  /** INSERT OR IGNORE: an existing name keeps its row. */
  function InsertSubscription(db: Db, name: string, row: Subscription): Db {
    if name in db.subs then db else db.(subs := db.subs[name := row])
  }

  function CreateSubscription(db: Db, req: NewSubscription): Result<Db, Error> {
    match CheckedRow(db.lang, db.topics, db.topics, req)
    case Err(e) => Err(e)
    case Ok(row) => Ok(InsertSubscription(db, req.name, row))
  }

  /** An update request, its texts already trimmed. */
  datatype Patch = Patch(ackDeadline: Option<int>, filter: Option<string>, deadLetter: Option<(string, int)>)

  /** The row an update writes back, computed from the row it read. */
  function Patched(lang: Language, topics: set<string>, row: Subscription, patch: Patch): (r: Result<Subscription, Error>)
    ensures r.Ok? && SubscriptionOk(lang, row) ==> SubscriptionOk(lang, r.value)
  {
    var row1 := if patch.ackDeadline.Some? then row.(ackDeadlineSeconds := AckSeconds(patch.ackDeadline.value)) else row;
    if patch.filter.Some? && patch.filter.value != "" && !lang.parses(patch.filter.value) then Err(InvalidFilter)
    else
      var row2 := if patch.filter.Some? then row1.(filter := patch.filter.value) else row1;
      if patch.deadLetter.None? then Ok(row2)
      else
        match CheckedPolicy(topics, patch.deadLetter.value.0, patch.deadLetter.value.1)
        case Err(e) => Err(e)
        case Ok(policy) => Ok(row2.(deadLetterTopic := policy.0, maxDeliveryAttempts := policy.1))
  }

  /** UPDATE ... WHERE name = ?: writes nothing when the row is gone. */
  function WriteSubscription(db: Db, name: string, row: Subscription): Db {
    if name in db.subs then db.(subs := db.subs[name := row]) else db
  }

  function UpdateSubscription(db: Db, name: string, patch: Patch): Result<Db, Error> {
    if name !in db.subs then Err(SubscriptionNotFound)
    else
      match Patched(db.lang, db.topics, db.subs[name], patch)
      case Err(e) => Err(e)
      case Ok(row) => Ok(WriteSubscription(db, name, row))
  }

  function DeleteSubscription(db: Db, name: string): Db {
    db.(msgs := map a | a in db.msgs && db.msgs[a].subscription != name :: db.msgs[a], subs := db.subs - {name})
  }
}
