/** Whole runs of the object store: what its reads return, and what a retention policy promises. */
module GcsRuns {
  import opened Basics
  import opened GcsPaths
  import opened GcsModel
  import opened GcsContent
  import opened GcsRefinement

  datatype Step = Step(op: Op, now: Instant)

  function Run(db: Db, steps: seq<Step>): Db
    decreases |steps|
  {
    if steps == [] then db else Run(Apply(db, steps[0].op, steps[0].now).db, steps[1..])
  }

  /** The log after a run that began in `db`, which `log` describes. */
  function History(log: Log, db: Db, steps: seq<Step>): Log
    decreases |steps|
  {
    if steps == [] then log
    else
      var out := Apply(db, steps[0].op, steps[0].now);
      History(Effect(log, steps[0].op, out.key, steps[0].now), out.db, steps[1..])
  }

  ghost predicate AllNames(steps: seq<Step>, ok: string -> bool) {
    forall s :: s in steps ==> Names(s.op, ok)
  }

  /** The clock never goes back, starting from `start`. */
  ghost predicate Forward(start: Instant, steps: seq<Step>) {
    && (forall s :: s in steps ==> start <= s.now)
    && (forall i, j :: 0 <= i < j < |steps| ==> steps[i].now <= steps[j].now)
  }

  function EmptyDb(layout: Layout): Db {
    Db(layout, map[], map[], map[], {})
  }

  lemma CanonicalIsFaithful()
    ensures Faithful(LAYOUT, Canonical)
  {
    forall a, b | Canonical(a) && Canonical(b) && LAYOUT.segments(a) == LAYOUT.segments(b) ensures a == b { SharedPath(a, b); }
  }

  // ---------- content ----------

  lemma {:induction false} RunDescribed(log: Log, db: Db, ok: string -> bool, steps: seq<Step>)
    requires Describes(log, db) && Sound(db, ok) && AllNames(steps, ok)
    ensures Describes(History(log, db, steps), Run(db, steps)) && Sound(Run(db, steps), ok)
    decreases |steps|
  {
    if steps != [] {
      assert steps[0] in steps;
      EveryOperation(log, db, ok, steps[0].op, steps[0].now);
      var out := Apply(db, steps[0].op, steps[0].now);
      RunDescribed(Effect(log, steps[0].op, out.key, steps[0].now), out.db, ok, steps[1..]);
    }
  }

  lemma {:induction false} WithoutClocked(log: Log, k: ObjectKey, now: Instant)
    requires Clocked(log, now)
    ensures Clocked(Without(log, k), now)
  {
    if log != [] {
      WithoutClocked(log[1..], k, now);
      var rest := Without(log[1..], k);
      forall e | e in rest ensures log[0].created <= e.created {
        assert e in log[1..];
        var m :| 0 <= m < |log[1..]| && log[1..][m] == e;
        assert log[m + 1] == e;
      }
      assert Without(log, k) == (if log[0].key != k then [log[0]] else []) + rest;
    }
  }

  lemma EffectClocked(log: Log, op: Op, key: Option<ObjectKey>, start: Instant, now: Instant)
    requires Clocked(log, start) && start <= now
    ensures Clocked(Effect(log, op, key, now), now)
  {
    assert forall i :: 0 <= i < |log| ==> log[i] in log;
    if key.Some? && op.DeleteOp? { WithoutClocked(log, key.value, now); }
  }

  lemma {:induction false} RunClocked(log: Log, db: Db, start: Instant, steps: seq<Step>, end: Instant)
    requires Clocked(log, start) && Forward(start, steps) && start <= end && forall s :: s in steps ==> s.now <= end
    ensures Clocked(History(log, db, steps), end)
    decreases |steps|
  {
    if steps == [] {
    } else {
      var now := steps[0].now;
      assert steps[0] in steps;
      EffectClocked(log, steps[0].op, Apply(db, steps[0].op, now).key, start, now);
      var out := Apply(db, steps[0].op, now);
      forall s | s in steps[1..] ensures now <= s.now {
        var m :| 0 <= m < |steps[1..]| && steps[1..][m] == s;
        assert steps[m + 1] == s;
      }
      RunClocked(Effect(log, steps[0].op, out.key, now), out.db, now, steps[1..], end);
    }
  }

  ghost predicate NoSharedFiles(db: Db) {
    forall k, o :: k in db.objects && o in db.objects && db.objects[k].blob == db.objects[o].blob ==> k == o
  }

  /** What a caller reads is what the log holds. */
  predicate ReadsAs(log: Log, db: Db, bucket: string, name: string, generation: int) {
    match Pick(log, bucket, name, generation)
    case None => GetObject(db, bucket, name, generation) == None
    case Some(e) => GetObject(db, bucket, name, generation) == Some(e.key) && Recorded(db, e)
  }

  ghost predicate Timed(log: Log) {
    forall i, j :: 0 <= i < j < |log| ==> log[i].created <= log[j].created
  }

  /** After any run on names with paths of their own: generation 0 reads the bytes of the most recent put
      that is still live, a numbered generation reads the bytes it was put with, puts of a name are
      numbered and timed in the order they happened, and no two rows share a file. */
  lemma ContentOfRun(layout: Layout, ok: string -> bool, steps: seq<Step>, start: Instant, bucket: string, name: string, generation: int)
    requires Faithful(layout, ok) && AllNames(steps, ok) && Forward(start, steps)
    ensures var log, db := History([], EmptyDb(layout), steps), Run(EmptyDb(layout), steps);
            && InOrder(log) && Timed(log) && NoSharedFiles(db) && ReadsAs(log, db, bucket, name, generation)
  {
    var empty := EmptyDb(layout);
    assert Describes([], empty) && Sound(empty, ok) && Clocked([], start);
    RunDescribed([], empty, ok, steps);
    var log, db := History([], empty, steps), Run(empty, steps);
    RunClocked([], empty, start, steps, LastInstant(start, steps));
    ReadsThroughLog(log, db, bucket, name, generation);
    forall k, o | k in db.objects && o in db.objects && db.objects[k].blob == db.objects[o].blob ensures k == o {
      NoSharedBlob(db, ok, k, o);
    }
  }

  /** The store itself has such paths for the canonical names. */
  lemma ContentOfCanonicalRun(steps: seq<Step>, start: Instant, bucket: string, name: string, generation: int)
    requires AllNames(steps, Canonical) && Forward(start, steps)
    ensures var log, db := History([], EmptyDb(LAYOUT), steps), Run(EmptyDb(LAYOUT), steps);
            && InOrder(log) && Timed(log) && NoSharedFiles(db) && ReadsAs(log, db, bucket, name, generation)
  {
    CanonicalIsFaithful();
    ContentOfRun(LAYOUT, Canonical, steps, start, bucket, name, generation);
  }

  function LastInstant(start: Instant, steps: seq<Step>): (r: Instant)
    ensures start <= r && forall s :: s in steps ==> s.now <= r
  {
    if steps == [] then start
    else
      var rest := LastInstant(start, steps[1..]);
      if steps[0].now <= rest then rest else steps[0].now
  }

  // ---------- names that share a path ----------

  /** A name keeps its path to itself among the canonical ones exactly when it is canonical. */
  lemma CanonicalExactly(name: string)
    ensures (forall m :: Canonical(m) && Segments(m) == Segments(name) ==> m == name) <==> Canonical(name)
  {
    SanitizedSegments(name);
    CanonicalSegments(Sanitize(name));
    forall m | Canonical(m) && Segments(m) == Segments(name) && Canonical(name) ensures m == name { SharedPath(m, name); }
    if !Canonical(name) {
      assert Canonical(Sanitize(name)) && Segments(Sanitize(name)) == Segments(name);
    }
  }

  /** A put changes what another live row reads exactly when both names have the same path, the numbers
      agree and the bytes differ. */
  lemma PutOverwrites(db: Db, bucket: string, name: string, contentType: string, data: Bytes, meta: Option<Headers>, now: Instant, o: ObjectKey)
    requires DbOk(db) && o in db.objects && db.objects[o].blob in db.files
    requires Put(db, bucket, name, contentType, data, meta, now).result.Ok?
    ensures var put := Put(db, bucket, name, contentType, data, meta, now);
            Read(put.db, o) != Read(db, o) <==>
              && o.bucket == bucket && o.generation == put.result.value.generation
              && db.layout.segments(o.name) == db.layout.segments(name) && Read(db, o) != Some(data)
  {
    NextGenerationIsNew(db, bucket, name);
    PutIsPutFile(db, bucket, name, contentType, data, meta, now);
    PutFileOverwrites(db, ObjectKey(bucket, name, NextGeneration(db, bucket, name)), PutHeaders(contentType, meta), data, now, o);
  }

  lemma PutFileOverwrites(db: Db, k: ObjectKey, headers: Headers, data: Bytes, now: Instant, o: ObjectKey)
    requires DbOk(db) && o in db.objects && db.objects[o].blob in db.files && k !in db.objects
    requires PutFile(db, k, headers, data, now).result.Ok?
    ensures var put := PutFile(db, k, headers, data, now);
            && put.result.value == k
            && (Read(put.db, o) != Read(db, o) <==>
                  o.bucket == k.bucket && o.generation == k.generation && db.layout.segments(o.name) == db.layout.segments(k.name) && Read(db, o) != Some(data))
  {
  }

  /** Deleting one row changes what another reads exactly when they share a file. */
  lemma RemoveUnreads(db: Db, k: ObjectKey, o: ObjectKey)
    requires DbOk(db) && k in db.objects && o in db.objects && o != k && db.objects[o].blob in db.files
    ensures Read(RemoveRow(db, k), o) != Read(db, o) <==>
              o.bucket == k.bucket && o.generation == k.generation && db.layout.segments(o.name) == db.layout.segments(k.name)
  {
    assert o in RemoveRow(db, k).objects;
  }

  function PutStep(bucket: string, name: string, data: Bytes): Step {
    Step(PutOp(bucket, name, "", data, None), 0)
  }

  /** Create a bucket, then put two names. */
  function TwoPuts(bucket: string, a: string, x: Bytes, b: string, y: Bytes): seq<Step> {
    [Step(CreateBucketOp(bucket, "p", "", ""), 0), PutStep(bucket, a, x), PutStep(bucket, b, y)]
  }

  /** The first put of a name into a bucket without retention, with nothing in its way. */
  lemma FirstPut(db: Db, log: Log, bucket: string, name: string, data: Bytes)
    requires ValidBucketName(bucket) && bucket in db.buckets && db.buckets[bucket].retentionSeconds == 0 && db.layout.allowed(name)
    requires Generations(db, bucket, name) == {}
    requires var path := BlobPath(bucket, 1, db.layout.segments(name)); path !in db.dirs && forall p :: p in db.files ==> p !in Parents(path)
    ensures var step := PutStep(bucket, name, data);
            var k, path, out := ObjectKey(bucket, name, 1), BlobPath(bucket, 1, db.layout.segments(name)), Apply(db, step.op, step.now);
            && out.key == Some(k) && Effect(log, step.op, out.key, step.now) == log + [Entry(k, data, 0)]
            && out.db.layout == db.layout && out.db.buckets == db.buckets && out.db.objects.Keys == db.objects.Keys + {k}
            && out.db.files == db.files[path := data] && out.db.dirs == db.dirs + Parents(path)
            && out.db.objects[k].blob == path && forall o :: o in db.objects && o != k ==> out.db.objects[o] == db.objects[o]
  {
    var path := BlobPath(bucket, 1, db.layout.segments(name));
    assert path !in Parents(path);
  }

  lemma {:induction false} OneStep(log: Log, db: Db, step: Step, rest: seq<Step>)
    ensures var out := Apply(db, step.op, step.now);
            && Run(db, [step] + rest) == Run(out.db, rest)
            && History(log, db, [step] + rest) == History(Effect(log, step.op, out.key, step.now), out.db, rest)
  {
    assert ([step] + rest)[1..] == rest;
  }

  /** Two admitted names with one path: after both have been put, the first reads as the second. */
  lemma SharedPathBreaks(layout: Layout, bucket: string, a: string, x: Bytes, b: string, y: Bytes)
    requires ValidBucketName(bucket) && layout.allowed(a) && layout.allowed(b)
    requires a != b && layout.segments(a) == layout.segments(b) && x != y
    ensures var steps := TwoPuts(bucket, a, x, b, y);
            !ReadsAs(History([], EmptyDb(layout), steps), Run(EmptyDb(layout), steps), bucket, a, 1)
  {
    var steps, db0 := TwoPuts(bucket, a, x, b, y), EmptyDb(layout);
    var db1 := Apply(db0, steps[0].op, 0).db;
    var db2 := Apply(db1, steps[1].op, 0).db;
    var db3 := Apply(db2, steps[2].op, 0).db;
    var path := BlobPath(bucket, 1, layout.segments(a));
    var ka, kb := ObjectKey(bucket, a, 1), ObjectKey(bucket, b, 1);
    assert path !in Parents(path);
    assert steps == [steps[0]] + ([steps[1]] + ([steps[2]] + []));
    OneStep([], db0, steps[0], [steps[1]] + ([steps[2]] + []));
    FirstPut(db1, [], bucket, a, x);
    OneStep([], db1, steps[1], [steps[2]] + []);
    assert Generations(db2, bucket, b) == {};
    FirstPut(db2, [] + [Entry(ka, x, 0)], bucket, b, y);
    OneStep([] + [Entry(ka, x, 0)], db2, steps[2], []);
    assert Find([] + [Entry(ka, x, 0)] + [Entry(kb, y, 0)], ka) == Some(Entry(ka, x, 0));
    assert Read(db3, ka) == Some(y);
  }

  /** Reads follow the log over every run on a set of admitted names exactly when no two of them have one path. */
  lemma ContentExactly(layout: Layout, ok: string -> bool, bucket: string)
    requires ValidBucketName(bucket) && forall n :: ok(n) ==> layout.allowed(n)
    ensures Faithful(layout, ok) <==>
              forall steps, name, generation :: AllNames(steps, ok) ==>
                ReadsAs(History([], EmptyDb(layout), steps), Run(EmptyDb(layout), steps), bucket, name, generation)
  {
    if Faithful(layout, ok) {
      forall steps, name, generation | AllNames(steps, ok)
        ensures ReadsAs(History([], EmptyDb(layout), steps), Run(EmptyDb(layout), steps), bucket, name, generation)
      {
        RunDescribed([], EmptyDb(layout), ok, steps);
        ReadsThroughLog(History([], EmptyDb(layout), steps), Run(EmptyDb(layout), steps), bucket, name, generation);
      }
    } else {
      var a, b :| ok(a) && ok(b) && layout.segments(a) == layout.segments(b) && a != b;
      SharedPathBreaks(layout, bucket, a, [], b, [0]);
      assert AllNames(TwoPuts(bucket, a, [], b, [0]), ok);
    }
  }

  lemma SlashesDecide(a: string, b: string)
    requires Slashes(a) == Slashes(b)
    ensures Sanitize(a) == Sanitize(b)
  {
  }

  lemma BackslashShares()
    ensures Sanitize("a/b") == Sanitize("a\\b")
  {
    SlashesDecide("a/b", "a\\b");
  }

  /** After deleting the latest generation the next put gets the same number again exactly when nothing
      is missing below it; otherwise an even earlier one. */
  lemma GenerationReused(db: Db, bucket: string, name: string, now: Instant)
    requires DbOk(db) && Delete(db, bucket, name, 0, now).result == Ok(true)
    ensures var k := GetObject(db, bucket, name, 0);
            && k.Some?
            && var next := NextGeneration(Delete(db, bucket, name, 0, now).db, bucket, name);
            && next <= k.value.generation
            && (next == k.value.generation <==>
                  k.value.generation == 1 || ObjectKey(bucket, name, k.value.generation - 1) in db.objects)
  {
    GetObjectFinds(db, bucket, name, 0);
    var k := GetObject(db, bucket, name, 0).value;
    var after := Delete(db, bucket, name, 0, now).db;
    assert forall o :: o in after.objects <==> o in db.objects && o != k;
    NextGenerationOf(after, bucket, name);
    assert DbOk(after);
    NextGenerationIsNew(after, bucket, name);
    var next := NextGeneration(after, bucket, name);
    if k.generation > 1 {
      var below := ObjectKey(bucket, name, k.generation - 1);
      assert below in db.objects ==> below in after.objects;
    }
  }

  lemma NextGenerationOf(db: Db, bucket: string, name: string)
    ensures var n := NextGeneration(db, bucket, name);
            n == 1 || (n > 0 && ObjectKey(bucket, name, n - 1) in db.objects)
  {
    if Generations(db, bucket, name) != {} {
      var m := MaxOf(Generations(db, bucket, name));
      var o :| o in db.objects && o.bucket == bucket && o.name == name && o.generation == m;
      assert o == ObjectKey(bucket, name, m);
    }
  }

  // ---------- retention ----------

  /** Every row outlives an operation, with its bytes and its time, except the one a delete names. */
  lemma OnlyDeletesRemove(db: Db, ok: string -> bool, op: Op, now: Instant, k: ObjectKey)
    requires Sound(db, ok) && Names(op, ok) && k in db.objects
    ensures var out := Apply(db, op, now);
            || Same(db, out.db, k)
            || (op.DeleteOp? && GetObject(db, op.bucket, op.name, op.generation) == Some(k) && out.key == Some(k))
  {
    EveryOperationMoves(db, ok, op, now);
  }

  /** The age of `k` is below its bucket's period, and the period is one a 64-bit duration can hold. */
  predicate Young(db: Db, k: ObjectKey, now: Instant) {
    && k in db.objects && k.bucket in db.buckets
    && var period := db.buckets[k.bucket].retentionSeconds * SECOND;
    period < TWO63 && now - db.objects[k].createdAt < period
  }

  lemma YoungStays(db: Db, ok: string -> bool, op: Op, now: Instant, k: ObjectKey)
    requires Sound(db, ok) && Names(op, ok) && Young(db, k, now) && db.objects[k].createdAt <= now
    ensures Same(db, Apply(db, op, now).db, k)
  {
    OnlyDeletesRemove(db, ok, op, now, k);
    if op.DeleteOp? && GetObject(db, op.bucket, op.name, op.generation) == Some(k) {
      GetObjectFinds(db, op.bucket, op.name, op.generation);
      assert GetObject(db, op.bucket, op.name, k.generation) == Some(k);
      assert Retained(db, op.bucket, op.name, k.generation, now);
    }
  }

  /** At every step of the run `k` is younger than the period then in force. */
  predicate StaysYoung(db: Db, steps: seq<Step>, k: ObjectKey)
    decreases |steps|
  {
    steps == [] || (Young(db, k, steps[0].now) && StaysYoung(Apply(db, steps[0].op, steps[0].now).db, steps[1..], k))
  }

  /** Until its age reaches the period in force a generation stays readable, whatever runs: no delete,
      no other put, no copy and no bucket deletion gets past the policy. */
  lemma {:induction false} RetentionSafety(db: Db, ok: string -> bool, steps: seq<Step>, k: ObjectKey)
    requires Sound(db, ok) && AllNames(steps, ok) && k in db.objects
    requires Forward(db.objects[k].createdAt, steps) && StaysYoung(db, steps, k)
    ensures Same(db, Run(db, steps), k)
    decreases |steps|
  {
    if steps != [] {
      assert steps[0] in steps;
      StepSound(db, ok, steps[0]);
      var db1 := Apply(db, steps[0].op, steps[0].now).db;
      YoungStays(db, ok, steps[0].op, steps[0].now, k);
      assert Forward(db.objects[k].createdAt, steps[1..]);
      RetentionSafety(db1, ok, steps[1..], k);
    }
  }

  lemma StepSound(db: Db, ok: string -> bool, step: Step)
    requires Sound(db, ok) && Names(step.op, ok)
    ensures Sound(Apply(db, step.op, step.now).db, ok)
  {
    EveryOperationMoves(db, ok, step.op, step.now);
    MovesSound(db, ok, step.op, step.now, Apply(db, step.op, step.now));
  }
}
