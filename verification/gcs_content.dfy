/** What the object store remembers, told without paths, files or generation numbers read back from
    rows: a log with one entry per live generation, in the order of the puts. */
module GcsContent {
  import opened Basics
  import opened GcsModel

  datatype Entry = Entry(key: ObjectKey, data: Bytes, created: Instant)

  type Log = seq<Entry>

  predicate Of(k: ObjectKey, bucket: string, name: string) {
    k.bucket == bucket && k.name == name
  }

  /** The most recent put of a name that is still live. */
  function LastOf(log: Log, bucket: string, name: string): Option<Entry> {
    if log == [] then None
    else if Of(log[|log| - 1].key, bucket, name) then Some(log[|log| - 1])
    else LastOf(log[..|log| - 1], bucket, name)
  }

  function Find(log: Log, key: ObjectKey): Option<Entry> {
    if log == [] then None
    else if log[0].key == key then Some(log[0])
    else Find(log[1..], key)
  }

  function Pick(log: Log, bucket: string, name: string, generation: int): Option<Entry> {
    if generation > 0 then Find(log, ObjectKey(bucket, name, generation)) else LastOf(log, bucket, name)
  }

  function Without(log: Log, key: ObjectKey): Log {
    Filter(log, (e: Entry) => e.key != key)
  }

  /** The most recent bytes of each source, one after the other. */
  function Concatenated(log: Log, bucket: string, sources: seq<string>): Bytes {
    if sources == [] then []
    else
      match LastOf(log, bucket, sources[0])
      case None => []
      case Some(e) => e.data + Concatenated(log, bucket, sources[1..])
  }

  // ---------- operations ----------

  datatype Op =
    | CreateBucketOp(name: string, project: string, location: string, storageClass: string)
    | PatchBucketOp(name: string, patch: BucketPatch)
    | DeleteBucketOp(name: string)
    | PutOp(bucket: string, name: string, contentType: string, data: Bytes, meta: Option<Headers>)
    | DeleteOp(bucket: string, name: string, generation: int)
    | PatchObjectOp(bucket: string, name: string, generation: int, headers: Headers, setMetadata: bool)
    | ComposeOp(srcBucket: string, bucket: string, name: string, sources: seq<string>, contentType: string)
    | CopyOp(srcBucket: string, srcName: string, srcGeneration: int, bucket: string, name: string)

  /** The state after an operation and the row it created or removed, if any. */
  datatype Outcome = Outcome(db: Db, key: Option<ObjectKey>)

  function OfPut(put: PutOutcome): Outcome {
    Outcome(put.db, if put.result.Ok? then Some(put.result.value) else None)
  }

  function Apply(db: Db, op: Op, now: Instant): Outcome {
    match op
    case CreateBucketOp(name, project, location, storageClass) =>
      var r := CreateBucket(db, name, project, location, storageClass, now);
      Outcome(if r.Ok? then r.value else db, None)
    case PatchBucketOp(name, patch) =>
      var r := PatchBucket(db, name, patch, now);
      Outcome(if r.Ok? then r.value else db, None)
    case DeleteBucketOp(name) =>
      var r := DeleteBucket(db, name);
      Outcome(if r.Ok? then r.value else db, None)
    case PutOp(bucket, name, contentType, data, meta) => OfPut(Put(db, bucket, name, contentType, data, meta, now))
    case DeleteOp(bucket, name, generation) =>
      var r := Delete(db, bucket, name, generation, now);
      Outcome(r.db, if r.result == Ok(true) then GetObject(db, bucket, name, generation) else None)
    case PatchObjectOp(bucket, name, generation, headers, setMetadata) =>
      var r := PatchObject(db, bucket, name, generation, headers, setMetadata, now);
      Outcome(if r.Ok? then r.value else db, None)
    case ComposeOp(srcBucket, bucket, name, sources, contentType) => OfPut(Compose(db, srcBucket, bucket, name, sources, contentType, now))
    case CopyOp(srcBucket, srcName, srcGeneration, bucket, name) =>
      OfPut(Copy(db, srcBucket, srcName, srcGeneration, bucket, name, now))
  }

  /** What the log makes of an operation, given which row it created or removed. */
  function Effect(log: Log, op: Op, key: Option<ObjectKey>, now: Instant): Log {
    match key
    case None => log
    case Some(k) =>
      match op
      case PutOp(_, _, _, data, _) => log + [Entry(k, data, now)]
      case ComposeOp(srcBucket, _, _, sources, _) => log + [Entry(k, Concatenated(log, srcBucket, sources), now)]
      case CopyOp(srcBucket, srcName, srcGeneration, _, _) =>
        (match Pick(log, srcBucket, srcName, srcGeneration)
         case None => log
         case Some(e) => log + [Entry(k, e.data, now)])
      case DeleteOp(bucket, name, generation) => Without(log, k)
      case _ => log
  }

  // ---------- the log describes the state ----------

  ghost predicate HasKey(log: Log, k: ObjectKey) {
    exists e :: e in log && e.key == k
  }

  predicate Recorded(db: Db, e: Entry) {
    && e.key in db.objects && Read(db, e.key) == Some(e.data)
    && db.objects[e.key].createdAt == e.created && db.objects[e.key].size == |e.data|
  }

  predicate Older(a: Entry, b: Entry) {
    Of(a.key, b.key.bucket, b.key.name) ==> a.key.generation < b.key.generation
  }

  /** Generations of one name grow along the log. */
  ghost predicate InOrder(log: Log) {
    forall i, j :: 0 <= i < j < |log| ==> Older(log[i], log[j])
  }

  ghost predicate Describes(log: Log, db: Db) {
    && InOrder(log)
    && (forall e :: e in log ==> Recorded(db, e))
    && (forall k :: k in db.objects ==> HasKey(log, k))
  }

  /** Entries carry the times of their puts, which never decrease and are not after `now`. */
  ghost predicate Clocked(log: Log, now: Instant) {
    && (forall i, j :: 0 <= i < j < |log| ==> log[i].created <= log[j].created)
    && (forall e :: e in log ==> e.created <= now)
  }

  /** No two allowed names have the same path. */
  ghost predicate Faithful(layout: Layout, ok: string -> bool) {
    forall a, b :: ok(a) && ok(b) && layout.segments(a) == layout.segments(b) ==> a == b
  }

  ghost predicate AllOk(db: Db, ok: string -> bool) {
    forall k :: k in db.objects ==> ok(k.name)
  }

  predicate Names(op: Op, ok: string -> bool) {
    op.PutOp? || op.ComposeOp? || op.CopyOp? ==> ok(op.name)
  }

  /** Everything an operation keeps. */
  ghost predicate Sound(db: Db, ok: string -> bool) {
    DbOk(db) && Faithful(db.layout, ok) && AllOk(db, ok)
  }

  /** Live rows never share a file. */
  lemma NoSharedBlob(db: Db, ok: string -> bool, k: ObjectKey, o: ObjectKey)
    requires Sound(db, ok) && k in db.objects && o in db.objects
    ensures db.objects[k].blob == db.objects[o].blob <==> k == o
  {
    if db.objects[k].blob == db.objects[o].blob {
      assert ok(k.name) && ok(o.name);
      assert k.name == o.name;
    }
  }

  // ---------- reading through the log ----------

  lemma {:induction false} LastOfFinds(log: Log, bucket: string, name: string)
    requires InOrder(log)
    ensures match LastOf(log, bucket, name)
            case Some(l) => l in log && Of(l.key, bucket, name) && forall e :: e in log && Of(e.key, bucket, name) ==> e == l || e.key.generation < l.key.generation
            case None => forall e :: e in log ==> !Of(e.key, bucket, name)
  {
    if log != [] {
      var n := |log| - 1;
      var front, last := log[..n], log[n];
      assert log == front + [last];
      if Of(last.key, bucket, name) {
        forall e | e in log && Of(e.key, bucket, name) ensures e == last || e.key.generation < last.key.generation {
          var i :| 0 <= i < |log| && log[i] == e;
          assert i < n ==> Older(log[i], log[n]);
        }
      } else {
        LastOfFinds(front, bucket, name);
      }
    }
  }

  lemma {:induction false} FindFinds(log: Log, key: ObjectKey)
    ensures match Find(log, key)
            case Some(e) => e in log && e.key == key
            case None => !HasKey(log, key)
  {
    if log != [] { FindFinds(log[1..], key); }
  }

  /** Reading a generation, or the latest, finds exactly what the log holds: the latest generation is
      the most recent put that is still live, with its bytes and its time. */
  lemma ReadsThroughLog(log: Log, db: Db, bucket: string, name: string, generation: int)
    requires Describes(log, db)
    ensures match Pick(log, bucket, name, generation)
            case None => GetObject(db, bucket, name, generation) == None
            case Some(e) => GetObject(db, bucket, name, generation) == Some(e.key) && Recorded(db, e)
  {
    GetObjectFinds(db, bucket, name, generation);
    if generation > 0 {
      FindFinds(log, ObjectKey(bucket, name, generation));
    } else {
      LastOfFinds(log, bucket, name);
      var found := GetObject(db, bucket, name, generation);
      if found.Some? {
        assert HasKey(log, found.value);
      }
    }
  }
}
