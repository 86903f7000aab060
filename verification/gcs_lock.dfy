/** What locking a bucket's retention policy promises, and the one way around it. */
module GcsLock {
  import opened Basics
  import opened GcsModel
  import opened GcsContent
  import opened GcsRefinement
  import opened GcsRuns

  /** A lock survives every operation that leaves the bucket in place, and the period does not shrink. */
  lemma LockStep(db: Db, op: Op, now: Instant, b: string)
    requires b in db.buckets && db.buckets[b].locked && db.buckets[b].retentionSeconds > 0
    ensures var after := Apply(db, op, now).db;
            b in after.buckets ==> after.buckets[b].locked && after.buckets[b].retentionSeconds >= db.buckets[b].retentionSeconds
  {
    match op
    case PutOp(bucket, name, contentType, data, meta) => PutKeepsBuckets(db, bucket, name, contentType, data, meta, now);
    case ComposeOp(srcBucket, bucket, name, sources, contentType) =>
      var all := Gather(db, srcBucket, sources, contentType);
      if all.Ok? { PutKeepsBuckets(db, bucket, name, all.value.1, all.value.0, None, now); }
    case CopyOp(srcBucket, srcName, srcGeneration, bucket, name) =>
      var src := GetObject(db, srcBucket, srcName, srcGeneration);
      if src.Some? && Read(db, src.value).Some? {
        var row := db.objects[src.value];
        PutKeepsBuckets(db, bucket, name, row.headers.contentType, Read(db, src.value).value, Some(row.headers), now);
      }
    case DeleteOp(_, _, _) =>
    case CreateBucketOp(_, _, _, _) =>
    case PatchBucketOp(_, _) =>
    case DeleteBucketOp(_) =>
    case PatchObjectOp(_, _, _, _, _) =>
  }

  lemma PutKeepsBuckets(db: Db, bucket: string, name: string, contentType: string, data: Bytes, meta: Option<Headers>, now: Instant)
    ensures Put(db, bucket, name, contentType, data, meta, now).db.buckets == db.buckets
  {
    PutIsPutFile(db, bucket, name, contentType, data, meta, now);
  }

  ghost predicate Present(db: Db, steps: seq<Step>, b: string)
    decreases |steps|
  {
    b in db.buckets && (steps == [] || Present(Apply(db, steps[0].op, steps[0].now).db, steps[1..], b))
  }

  /** Once locked, a bucket stays locked and its period never decreases while it exists. */
  lemma {:induction false} LockedForGood(db: Db, steps: seq<Step>, b: string)
    requires Present(db, steps, b) && db.buckets[b].locked && db.buckets[b].retentionSeconds > 0
    ensures var after := Run(db, steps);
            b in after.buckets && after.buckets[b].locked && after.buckets[b].retentionSeconds >= db.buckets[b].retentionSeconds
    decreases |steps|
  {
    if steps != [] {
      LockStep(db, steps[0].op, steps[0].now, b);
      LockedForGood(Apply(db, steps[0].op, steps[0].now).db, steps[1..], b);
    }
  }

  /** A patch asks for no period that a 64-bit duration cannot hold. */
  predicate PeriodFits(op: Op) {
    op.PatchBucketOp? && op.patch.retention.Some? ==> op.patch.retention.value.seconds * SECOND < TWO63
  }

  lemma PeriodStaysFitting(db: Db, op: Op, now: Instant, b: string)
    requires PeriodFits(op) && b in db.buckets && db.buckets[b].retentionSeconds * SECOND < TWO63
    ensures var after := Apply(db, op, now).db;
            b in after.buckets ==> after.buckets[b].retentionSeconds * SECOND < TWO63
  {
    match op
    case PutOp(bucket, name, contentType, data, meta) => PutKeepsBuckets(db, bucket, name, contentType, data, meta, now);
    case ComposeOp(srcBucket, bucket, name, sources, contentType) =>
      var all := Gather(db, srcBucket, sources, contentType);
      if all.Ok? { PutKeepsBuckets(db, bucket, name, all.value.1, all.value.0, None, now); }
    case CopyOp(srcBucket, srcName, srcGeneration, bucket, name) =>
      var src := GetObject(db, srcBucket, srcName, srcGeneration);
      if src.Some? && Read(db, src.value).Some? {
        var row := db.objects[src.value];
        PutKeepsBuckets(db, bucket, name, row.headers.contentType, Read(db, src.value).value, Some(row.headers), now);
      }
    case DeleteOp(_, _, _) =>
    case CreateBucketOp(_, _, _, _) =>
    case PatchBucketOp(_, _) =>
    case DeleteBucketOp(_) =>
    case PatchObjectOp(_, _, _, _, _) =>
  }

  /** A generation in a locked bucket is there, unchanged, until the period it was locked with has passed
      since it was put: nothing that runs meanwhile can remove it, its bucket or the lock. */
  lemma {:induction false} LockedRetention(db: Db, ok: string -> bool, steps: seq<Step>, k: ObjectKey, period: int)
    requires Sound(db, ok) && AllNames(steps, ok) && k in db.objects && Forward(db.objects[k].createdAt, steps)
    requires k.bucket in db.buckets && db.buckets[k.bucket].locked && 0 < period <= db.buckets[k.bucket].retentionSeconds
    requires db.buckets[k.bucket].retentionSeconds * SECOND < TWO63 && forall s :: s in steps ==> PeriodFits(s.op)
    requires forall s :: s in steps ==> s.now < db.objects[k].createdAt + period * SECOND
    ensures Same(db, Run(db, steps), k)
    ensures k.bucket in Run(db, steps).buckets && Run(db, steps).buckets[k.bucket].locked && period <= Run(db, steps).buckets[k.bucket].retentionSeconds
    decreases |steps|
  {
    if steps != [] {
      var s := steps[0];
      assert s in steps;
      var db1 := Apply(db, s.op, s.now).db;
      StepSound(db, ok, s);
      YoungStays(db, ok, s.op, s.now, k);
      LockStep(db, s.op, s.now, k.bucket);
      PeriodStaysFitting(db, s.op, s.now, k.bucket);
      LockedRetention(db1, ok, steps[1..], k, period);
    }
  }

  // ---------- periods that overflow ----------

  /** The test of checkObjectRetention, for an object of the given age. */
  predicate Refuses(age: int, seconds: int) {
    age < Seconds(seconds)
  }

  /** The test is the one the period calls for exactly when the period fits a 64-bit count of nanoseconds,
      that is, up to 9,223,372,036 seconds. */
  lemma PeriodExact(seconds: int)
    requires seconds > 0
    ensures (forall age: nat :: Refuses(age, seconds) <==> age < seconds * SECOND) <==> seconds * SECOND < TWO63
    ensures seconds * SECOND < TWO63 <==> seconds <= 9_223_372_036
  {
    if seconds * SECOND >= TWO63 {
      var age: nat := if Seconds(seconds) < 0 then 0 else Seconds(seconds);
      assert !Refuses(age, seconds) && age < seconds * SECOND;
    }
  }

  /** Raising a locked period is always accepted. If the new period overflows to a negative duration, every
      generation of the bucket can then be deleted at once, whatever its age. */
  lemma LockBypassed(db: Db, ok: string -> bool, k: ObjectKey, seconds: int, now: Instant)
    requires Sound(db, ok) && k in db.objects && db.objects[k].createdAt <= now
    requires db.buckets[k.bucket].locked && 0 < db.buckets[k.bucket].retentionSeconds <= seconds && Seconds(seconds) <= 0
    ensures var raised := Apply(db, PatchBucketOp(k.bucket, BucketPatch(None, None, None, Some(RetentionPatch(seconds, false, None)))), now).db;
            && raised.buckets[k.bucket].locked && raised.buckets[k.bucket].retentionSeconds == seconds
            && k !in Apply(raised, DeleteOp(k.bucket, k.name, k.generation), now).db.objects
  {
    var raised := Apply(db, PatchBucketOp(k.bucket, BucketPatch(None, None, None, Some(RetentionPatch(seconds, false, None)))), now).db;
    assert raised.objects == db.objects;
    assert GetObject(raised, k.bucket, k.name, k.generation) == Some(k);
  }

  /** 9,223,372,037 seconds, about 292 years, is the first such period. */
  lemma FirstOverflow(seconds: int)
    requires 0 < seconds <= 9_223_372_037
    ensures Seconds(seconds) <= 0 <==> seconds == 9_223_372_037
  {
  }
}
