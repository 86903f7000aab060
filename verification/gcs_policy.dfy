/** What requests about buckets and objects bring about: retention patches and locks, deletions, headers and bucket
    names. */
module GcsPolicy {
  import opened Basics
  import opened Text
  import opened GcsPaths
  import opened GcsModel
  import opened GcsContent
  import opened GcsRefinement
  import opened GcsRuns
  import opened GcsLock

  // ---------- retention patches ----------

  /** The bucket's policy lets the period be set: it is not locked, or the period neither shrinks nor goes. */
  predicate MaySet(b: Bucket, seconds: int) {
    !b.locked || (seconds >= b.retentionSeconds && seconds != 0)
  }

  /** A patch is accepted exactly when the bucket exists and may get the period asked for. An accepted retention patch
      leaves exactly that period; the bucket is locked afterwards exactly when the period is not 0 and the request or
      the old policy had the lock; and the policy counts from the instant given, or from now if it had none in
      force. A patch without retention leaves the policy. */
  lemma RetentionPatched(db: Db, name: string, patch: BucketPatch, now: Instant)
    ensures var after := Apply(db, PatchBucketOp(name, patch), now).db;
            if name in db.buckets && (patch.retention.Some? ==> MaySet(db.buckets[name], patch.retention.value.seconds)) then
              && name in after.buckets
              && var was, b := db.buckets[name], after.buckets[name];
              match patch.retention
              case None => b.retentionSeconds == was.retentionSeconds && b.locked == was.locked && b.effectiveTime == was.effectiveTime
              case Some(r) =>
                && b.retentionSeconds == r.seconds && (b.locked <==> r.seconds != 0 && (r.lock || was.locked))
                && (r.effectiveTime.Some? ==> b.effectiveTime == r.effectiveTime)
                && (r.effectiveTime.None? && r.seconds == 0 ==> b.effectiveTime == None)
                && (r.effectiveTime.None? && r.seconds > 0 ==>
                      b.effectiveTime == if was.retentionSeconds != 0 && was.effectiveTime.Some? then was.effectiveTime else Some(now))
            else after == db
  {
  }

  /** The rest of a patch: the given texts and labels replace the old ones, every other bucket and every object stays. */
  lemma BucketPatched(db: Db, name: string, patch: BucketPatch, now: Instant, other: string)
    requires PatchBucket(db, name, patch, now).Ok?
    ensures var after := PatchBucket(db, name, patch, now).value;
            && after == db.(buckets := after.buckets) && after.buckets.Keys == db.buckets.Keys
            && (other in db.buckets && other != name ==> after.buckets[other] == db.buckets[other])
            && name in db.buckets
            && var was, b := db.buckets[name], after.buckets[name];
            && (forall t :: patch.location == Some(t) && t != "" ==> b.location == t)
            && (patch.location in {None, Some("")} ==> b.location == was.location)
            && (forall t :: patch.storageClass == Some(t) && t != "" ==> b.storageClass == t)
            && (patch.storageClass in {None, Some("")} ==> b.storageClass == was.storageClass)
            && b.labels == (if patch.labels.Some? then patch.labels.value else was.labels)
            && b.metageneration == was.metageneration + 1 && b.createdAt == was.createdAt && b.projectId == was.projectId
  {
  }

  /** The request asks for a locked policy of `seconds`. */
  predicate AsksLock(op: Op, bucket: string, seconds: int) {
    op.PatchBucketOp? && op.name == bucket && op.patch.retention.Some? && op.patch.retention.value.lock && op.patch.retention.value.seconds == seconds
  }

  lemma {:induction false} PeriodStaysThrough(db: Db, steps: seq<Step>, b: string)
    requires Present(db, steps, b) && db.buckets[b].retentionSeconds * SECOND < TWO63 && forall s :: s in steps ==> PeriodFits(s.op)
    ensures b in Run(db, steps).buckets && Run(db, steps).buckets[b].retentionSeconds * SECOND < TWO63
    decreases |steps|
  {
    if steps != [] {
      assert steps[0] in steps;
      PeriodStaysFitting(db, steps[0].op, steps[0].now, b);
      PeriodStaysThrough(Apply(db, steps[0].op, steps[0].now).db, steps[1..], b);
    }
  }

  lemma {:induction false} RunSound(db: Db, ok: string -> bool, steps: seq<Step>)
    requires Sound(db, ok) && AllNames(steps, ok)
    ensures Sound(Run(db, steps), ok)
    decreases |steps|
  {
    if steps != [] {
      assert steps[0] in steps;
      StepSound(db, ok, steps[0]);
      RunSound(Apply(db, steps[0].op, steps[0].now).db, ok, steps[1..]);
    }
  }

  /** The state after an accepted request for a lock, and whatever follows while the bucket exists. */
  lemma LockTaken(db: Db, ok: string -> bool, bucket: string, seconds: int, request: Step, between: seq<Step>)
    requires Sound(db, ok) && AllNames(between, ok) && bucket in db.buckets
    requires AsksLock(request.op, bucket, seconds) && MaySet(db.buckets[bucket], seconds) && 0 < seconds && seconds * SECOND < TWO63
    requires Present(Apply(db, request.op, request.now).db, between, bucket) && forall s :: s in between ==> PeriodFits(s.op)
    ensures var held := Run(Apply(db, request.op, request.now).db, between);
            && Sound(held, ok) && bucket in held.buckets && held.buckets[bucket].locked
            && seconds <= held.buckets[bucket].retentionSeconds && held.buckets[bucket].retentionSeconds * SECOND < TWO63
  {
    var after := Apply(db, request.op, request.now).db;
    RetentionPatched(db, bucket, request.op.patch, request.now);
    StepSound(db, ok, request);
    RunSound(after, ok, between);
    LockedForGood(after, between, bucket);
    PeriodStaysThrough(after, between, bucket);
  }

  /** After an accepted request to lock a period, whatever is put into the bucket, then or after any number of other
      operations that leave the bucket there, is kept until that period has passed since it was put. */
  lemma LockRequestKeeps(db: Db, ok: string -> bool, bucket: string, seconds: int, request: Step, between: seq<Step>, put: Step, rest: seq<Step>)
    requires Sound(db, ok) && AllNames(between, ok) && AllNames([put], ok) && AllNames(rest, ok) && bucket in db.buckets
    requires AsksLock(request.op, bucket, seconds) && MaySet(db.buckets[bucket], seconds) && 0 < seconds && seconds * SECOND < TWO63
    requires Present(Apply(db, request.op, request.now).db, between, bucket) && forall s :: s in between + rest ==> PeriodFits(s.op)
    requires put.op.PutOp? && put.op.bucket == bucket
    requires Apply(Run(Apply(db, request.op, request.now).db, between), put.op, put.now).key.Some?
    requires Forward(put.now, rest) && forall s :: s in rest ==> s.now < put.now + seconds * SECOND
    ensures var made := Apply(Run(Apply(db, request.op, request.now).db, between), put.op, put.now);
            Same(made.db, Run(made.db, rest), made.key.value) && Read(Run(made.db, rest), made.key.value) == Some(put.op.data)
  {
    var held := Run(Apply(db, request.op, request.now).db, between);
    assert forall s :: s in between ==> s in between + rest;
    assert forall s :: s in rest ==> s in between + rest;
    LockTaken(db, ok, bucket, seconds, request, between);
    assert put in [put];
    StepSound(held, ok, put);
    PutWrites(held, ok, bucket, put.op.name, put.op.contentType, put.op.data, put.op.meta, put.now);
    PutKeepsBuckets(held, bucket, put.op.name, put.op.contentType, put.op.data, put.op.meta, put.now);
    var made := Apply(held, put.op, put.now);
    LockedRetention(made.db, ok, rest, made.key.value, seconds);
  }

  // ---------- deletions and overwrites ----------

  /** The age of the live generation has reached the period in force, or none is in force. */
  predicate OldEnough(db: Db, k: ObjectKey, now: Instant)
    requires k in db.objects && k.bucket in db.buckets
  {
    var seconds := db.buckets[k.bucket].retentionSeconds;
    seconds <= 0 || now - db.objects[k].createdAt >= seconds * SECOND
  }

  /** Deleting a live generation succeeds exactly when it is old enough. Then it is gone; else nothing has changed. */
  lemma DeleteExactly(db: Db, k: ObjectKey, now: Instant)
    requires DbOk(db) && k in db.objects && db.buckets[k.bucket].retentionSeconds * SECOND < TWO63
    ensures var del := Delete(db, k.bucket, k.name, k.generation, now);
            if OldEnough(db, k, now) then del.result == Ok(true) && del.db.objects == db.objects - {k} && Read(del.db, k) == None
            else del.result == Err(RetentionPolicyNotMet) && del.db == db
  {
    assert GetObject(db, k.bucket, k.name, k.generation) == Some(k);
  }

  /** Deleting without a generation deletes the latest. */
  lemma DeleteLatest(db: Db, bucket: string, name: string, now: Instant)
    requires DbOk(db)
    ensures match GetObject(db, bucket, name, 0)
            case None => Delete(db, bucket, name, 0, now) == DeleteOutcome(db, Ok(false))
            case Some(k) => k in db.objects && Delete(db, bucket, name, 0, now) == Delete(db, bucket, name, k.generation, now)
  {
    GetObjectFinds(db, bucket, name, 0);
    var k := GetObject(db, bucket, name, 0);
    if k.Some? { assert GetObject(db, bucket, name, k.value.generation) == k; }
  }

  /** A put over a live object is held back by the policy exactly when its latest generation is not old enough. */
  lemma OverwriteExactly(db: Db, bucket: string, name: string, contentType: string, data: Bytes, meta: Option<Headers>, now: Instant)
    requires DbOk(db) && ValidBucketName(bucket) && bucket in db.buckets && db.buckets[bucket].retentionSeconds * SECOND < TWO63
    ensures Put(db, bucket, name, contentType, data, meta, now).result == Err(RetentionPolicyNotMet) <==>
              var k := GetObject(db, bucket, name, 0); k.Some? && k.value in db.objects && !OldEnough(db, k.value, now)
  {
    GetObjectFinds(db, bucket, name, 0);
    PutIsPutFile(db, bucket, name, contentType, data, meta, now);
  }

  // ---------- buckets ----------

  /** Creating a bucket is accepted exactly for a valid name and some project. A new bucket is empty, unlocked and
      without a period; one that exists stays as it is. */
  lemma BucketCreated(db: Db, name: string, project: string, location: string, storageClass: string, now: Instant)
    requires DbOk(db)
    ensures var done := CreateBucket(db, name, project, location, storageClass, now);
            && (done.Ok? <==> name != "" && project != "" && ValidBucketName(name))
            && (done.Ok? && name in db.buckets ==> done.value == db)
            && (done.Ok? && name !in db.buckets ==>
                  && done.value == db.(buckets := done.value.buckets) && done.value.buckets.Keys == db.buckets.Keys + {name}
                  && (forall other :: other in db.buckets ==> done.value.buckets[other] == db.buckets[other])
                  && var b := done.value.buckets[name];
                  && b.projectId == project && !b.locked && b.retentionSeconds == 0 && b.metageneration == 1 && b.createdAt == now
                  && b.location == (if location != "" then location else "US")
                  && b.storageClass == (if storageClass != "" then storageClass else "STANDARD")
                  && Empty(done.value, name))
  {
  }

  /** Deleting a bucket succeeds exactly when it holds no object. Then nothing of it is left, file or directory, and
      puts into it find no bucket; other buckets keep everything. */
  lemma BucketDeleted(db: Db, name: string, objectName: string, contentType: string, data: Bytes, meta: Option<Headers>, now: Instant)
    requires DbOk(db) && name in db.buckets && ValidBucketName(name)
    ensures var done := DeleteBucket(db, name);
            && (done.Ok? <==> forall k :: k in db.objects ==> k.bucket != name)
            && (done.Ok? ==>
                  && done.value.buckets == db.buckets - {name} && done.value.objects == db.objects
                  && (forall p :: p in done.value.files || p in done.value.dirs ==> p.bucket != name)
                  && (forall p: BlobPath :: p.bucket != name ==>
                        && (p in done.value.files <==> p in db.files) && (p in db.files ==> done.value.files[p] == db.files[p])
                        && (p in done.value.dirs <==> p in db.dirs))
                  && Put(done.value, name, objectName, contentType, data, meta, now).result == Err(BucketNotFound))
  {
  }

  /** A valid bucket name is one path segment that means itself: buckets have their directories to themselves. */
  lemma BucketNameIsSegment(name: string)
    requires ValidBucketName(name)
    ensures Canonical(name) && Segments(name) == [name]
  {
    forall i | 0 <= i < |name| ensures name[i] != '/' && name[i] != '\\' {
      assert LowerAlnum(name[i]) || name[i] in "._-";
    }
    ContainsChar(name, '/');
    assert Split(name, "/") == [name];
    assert Kept(name);
    CanonicalSegments(name);
  }

  // ---------- headers ----------

  /** What a put stores besides the bytes: the content type of the given headers, else the one given beside them, else
      the default; the other headers as given. */
  lemma PutStoresHeaders(db: Db, bucket: string, name: string, contentType: string, data: Bytes, h: Headers, now: Instant)
    requires Put(db, bucket, name, contentType, data, Some(h), now).result.Ok?
    ensures var put := Put(db, bucket, name, contentType, data, Some(h), now);
            && put.result.value in put.db.objects
            && put.db.objects[put.result.value].headers ==
               h.(contentType := if h.contentType != "" then h.contentType else if contentType != "" then contentType else "application/octet-stream")
  {
    PutStores(db, bucket, name, contentType, data, Some(h), now);
  }

  predicate Replaced(after: string, before: string, given: string) {
    if given == "" then after == before else after == given
  }

  /** A metadata patch is accepted exactly when the object is there. It replaces the given headers of that generation,
      and its metadata if asked to, and touches neither bytes, size, creation time nor any other generation. */
  lemma ObjectPatched(db: Db, bucket: string, name: string, generation: int, patch: Headers, setMetadata: bool, now: Instant, o: ObjectKey)
    requires DbOk(db)
    ensures var k, done := GetObject(db, bucket, name, generation), PatchObject(db, bucket, name, generation, patch, setMetadata, now);
            && (done.Ok? <==> k.Some?)
            && (done.Ok? ==>
                  && k.value in db.objects && done.value == db.(objects := done.value.objects) && done.value.objects.Keys == db.objects.Keys
                  && (o in db.objects && o != k.value ==> done.value.objects[o] == db.objects[o])
                  && var was, row := db.objects[k.value], done.value.objects[k.value];
                  && row.blob == was.blob && row.size == was.size && row.createdAt == was.createdAt && row.metageneration == was.metageneration + 1
                  && Replaced(row.headers.contentType, was.headers.contentType, patch.contentType)
                  && Replaced(row.headers.cacheControl, was.headers.cacheControl, patch.cacheControl)
                  && Replaced(row.headers.contentDisposition, was.headers.contentDisposition, patch.contentDisposition)
                  && Replaced(row.headers.contentEncoding, was.headers.contentEncoding, patch.contentEncoding)
                  && Replaced(row.headers.contentLanguage, was.headers.contentLanguage, patch.contentLanguage)
                  && row.headers.metadata == if setMetadata then patch.metadata else was.headers.metadata)
  {
    GetObjectFinds(db, bucket, name, generation);
  }

  // ---------- compose and copy ----------

  /** Composing 1 to 32 sources that are all there puts the concatenation of their most recent bytes; otherwise it
      fails for the first of these reasons and changes nothing. */
  lemma ComposeExactly(log: Log, db: Db, bucket: string, name: string, sources: seq<string>, contentType: string, now: Instant)
    requires Describes(log, db)
    ensures var out := Compose(db, bucket, bucket, name, sources, contentType, now);
            if |sources| == 0 then out == PutOutcome(db, Err(NoSources))
            else if |sources| > 32 then out == PutOutcome(db, Err(TooManySources))
            else if exists s :: s in sources && LastOf(log, bucket, s) == None then out == PutOutcome(db, Err(ObjectNotFound))
            else exists ct :: out == Put(db, bucket, name, ct, Concatenated(log, bucket, sources), None, now)
  {
    GatherReads(log, db, bucket, sources, contentType);
    var all := Gather(db, bucket, sources, contentType);
    if 0 < |sources| <= 32 && all.Ok? {
      assert Compose(db, bucket, bucket, name, sources, contentType, now) == Put(db, bucket, name, all.value.1, all.value.0, None, now);
    }
  }
}
