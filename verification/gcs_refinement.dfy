/** Every operation of the object store does to the log what its name says, as long as the names that
    are written have paths of their own. */
module GcsRefinement {
  import opened Basics
  import opened GcsModel
  import opened GcsContent

  // ---------- the three things that can happen to rows ----------

  /** A row reads as before: same file, same bytes, same time. */
  predicate Same(before: Db, after: Db, k: ObjectKey) {
    && k in before.objects && k in after.objects
    && after.objects[k].blob == before.objects[k].blob && after.objects[k].createdAt == before.objects[k].createdAt
    && after.objects[k].size == before.objects[k].size && Read(after, k) == Read(before, k)
  }

  ghost predicate Framed(before: Db, after: Db) {
    && after.layout == before.layout
    && forall k :: k in after.objects ==> k.bucket in after.buckets
  }

  ghost predicate Idle(before: Db, after: Db) {
    && Framed(before, after) && after.objects.Keys == before.objects.Keys
    && forall k :: k in before.objects ==> Same(before, after, k)
  }

  ghost predicate Wrote(before: Db, after: Db, k: ObjectKey, data: Bytes, now: Instant) {
    && Framed(before, after) && after.objects.Keys == before.objects.Keys + {k}
    && k.generation >= 1
    && (forall o :: o in before.objects && Of(o, k.bucket, k.name) ==> o.generation < k.generation)
    && Recorded(after, Entry(k, data, now))
    && after.objects[k].blob == BlobPath(k.bucket, k.generation, after.layout.segments(k.name))
    && forall o :: o in before.objects ==> Same(before, after, o)
  }

  ghost predicate Removed(before: Db, after: Db, k: ObjectKey) {
    && Framed(before, after) && k in before.objects && after.objects.Keys == before.objects.Keys - {k}
    && forall o :: o in before.objects && o != k ==> Same(before, after, o)
  }

  // ---------- what they do to the log ----------

  lemma IdleDescribes(log: Log, before: Db, after: Db, ok: string -> bool)
    requires Describes(log, before) && Sound(before, ok) && Idle(before, after)
    ensures Describes(log, after) && Sound(after, ok)
  {
    forall e | e in log ensures Recorded(after, e) {
      assert Recorded(before, e);
      assert Same(before, after, e.key);
    }
    forall k | k in after.objects ensures k.generation >= 1 && after.objects[k].blob == BlobPath(k.bucket, k.generation, after.layout.segments(k.name)) && ok(k.name) && HasKey(log, k) {
      assert k in before.objects.Keys && Same(before, after, k);
    }
  }

  lemma RecordedAfter(log: Log, before: Db, after: Db, k: ObjectKey, data: Bytes, now: Instant)
    requires Describes(log, before) && Wrote(before, after, k, data, now)
    ensures InOrder(log + [Entry(k, data, now)])
    ensures forall x :: x in log + [Entry(k, data, now)] ==> Recorded(after, x)
  {
    forall x | x in log ensures Recorded(after, x) && Older(x, Entry(k, data, now)) {
      assert Recorded(before, x);
      assert Same(before, after, x.key);
    }
  }

  lemma WroteDescribes(log: Log, before: Db, after: Db, ok: string -> bool, k: ObjectKey, data: Bytes, now: Instant)
    requires Describes(log, before) && Sound(before, ok) && Wrote(before, after, k, data, now) && ok(k.name)
    ensures Describes(log + [Entry(k, data, now)], after) && Sound(after, ok)
  {
    RecordedAfter(log, before, after, k, data, now);
    var log' := log + [Entry(k, data, now)];
    assert Entry(k, data, now) in log';
    forall o | o in after.objects
      ensures o.generation >= 1 && after.objects[o].blob == BlobPath(o.bucket, o.generation, after.layout.segments(o.name)) && ok(o.name) && HasKey(log', o)
    {
      if o != k {
        assert o in before.objects.Keys && Same(before, after, o);
        var x :| x in log && x.key == o;
        assert x in log';
      }
    }
  }

  lemma {:induction false} WithoutKeeps(log: Log, k: ObjectKey)
    requires InOrder(log)
    ensures InOrder(Without(log, k))
  {
    if log != [] {
      WithoutKeeps(log[1..], k);
      var rest := Without(log[1..], k);
      forall e | e in rest ensures Older(log[0], e) {
        assert e in log[1..];
        var m :| 0 <= m < |log[1..]| && log[1..][m] == e;
        assert log[m + 1] == e;
      }
      assert Without(log, k) == (if log[0].key != k then [log[0]] else []) + rest;
    }
  }

  lemma RemovedDescribes(log: Log, before: Db, after: Db, ok: string -> bool, k: ObjectKey)
    requires Describes(log, before) && Sound(before, ok) && Removed(before, after, k)
    ensures Describes(Without(log, k), after) && Sound(after, ok)
  {
    WithoutKeeps(log, k);
    forall e | e in Without(log, k) ensures Recorded(after, e) {
      assert Recorded(before, e);
      assert Same(before, after, e.key);
    }
    forall o | o in after.objects
      ensures o.generation >= 1 && after.objects[o].blob == BlobPath(o.bucket, o.generation, after.layout.segments(o.name)) && ok(o.name) && HasKey(Without(log, k), o)
    {
      assert o in before.objects.Keys && Same(before, after, o);
      var x :| x in log && x.key == o;
      assert x in Without(log, k);
    }
  }

  // ---------- which of them each operation is ----------

  lemma PathIsNew(db: Db, ok: string -> bool, k: ObjectKey, o: ObjectKey)
    requires Sound(db, ok) && ok(k.name) && o in db.objects
    requires db.objects[o].blob == BlobPath(k.bucket, k.generation, db.layout.segments(k.name))
    ensures o == k
  {
    assert ok(o.name);
    assert o.name == k.name;
  }

  /** What a put leaves behind: one new row, or the rows as they were. */
  ghost predicate PutLeaves(before: Db, put: PutOutcome, k: ObjectKey, data: Bytes, now: Instant) {
    && put.db.buckets == before.buckets
    && match put.result
       case Ok(k') => k' == k && Wrote(before, put.db, k, data, now)
       case Err(_) => Idle(before, put.db)
  }

  lemma PutFileLeaves(db: Db, ok: string -> bool, k: ObjectKey, headers: Headers, data: Bytes, now: Instant)
    requires Sound(db, ok) && ok(k.name) && k.bucket in db.buckets && k.generation >= 1
    requires forall o :: o in db.objects && Of(o, k.bucket, k.name) ==> o.generation < k.generation
    ensures PutLeaves(db, PutFile(db, k, headers, data, now), k, data, now)
  {
    var put := PutFile(db, k, headers, data, now);
    if put.result.Ok? {
      forall o | o in db.objects ensures Same(db, put.db, o) {
        assert o != k;
        if db.objects[o].blob == BlobPath(k.bucket, k.generation, db.layout.segments(k.name)) { PathIsNew(db, ok, k, o); }
      }
    }
  }

  lemma PutIsPutFile(db: Db, bucket: string, name: string, contentType: string, data: Bytes, meta: Option<Headers>, now: Instant)
    ensures var put := Put(db, bucket, name, contentType, data, meta, now);
            || (put.db == db && put.result.Err?)
            || (bucket in db.buckets
                && put == PutFile(db, ObjectKey(bucket, name, NextGeneration(db, bucket, name)), PutHeaders(contentType, meta), data, now))
  {
  }

  lemma PutWrites(db: Db, ok: string -> bool, bucket: string, name: string, contentType: string, data: Bytes, meta: Option<Headers>, now: Instant)
    requires Sound(db, ok) && ok(name)
    ensures PutLeaves(db, Put(db, bucket, name, contentType, data, meta, now), ObjectKey(bucket, name, NextGeneration(db, bucket, name)), data, now)
  {
    NextGenerationIsNew(db, bucket, name);
    PutIsPutFile(db, bucket, name, contentType, data, meta, now);
    var put := Put(db, bucket, name, contentType, data, meta, now);
    if put.db == db && put.result.Err? {
      assert Idle(db, db);
    } else {
      PutFileLeaves(db, ok, ObjectKey(bucket, name, NextGeneration(db, bucket, name)), PutHeaders(contentType, meta), data, now);
    }
  }

  lemma DeleteRemoves(db: Db, ok: string -> bool, bucket: string, name: string, generation: int, now: Instant)
    requires Sound(db, ok)
    ensures var del := Delete(db, bucket, name, generation, now);
            && del.db.buckets == db.buckets
            && if del.result == Ok(true) then GetObject(db, bucket, name, generation).Some? && Removed(db, del.db, GetObject(db, bucket, name, generation).value)
               else del.db == db
  {
    GetObjectFinds(db, bucket, name, generation);
    var del := Delete(db, bucket, name, generation, now);
    if del.result == Ok(true) {
      var k := GetObject(db, bucket, name, generation).value;
      forall o | o in db.objects && o != k ensures Same(db, del.db, o) { NoSharedBlob(db, ok, k, o); }
    }
  }

  lemma BucketOpIdle(db: Db, ok: string -> bool, op: Op, now: Instant)
    requires Sound(db, ok)
    requires op.CreateBucketOp? || op.PatchBucketOp? || op.DeleteBucketOp? || op.PatchObjectOp?
    ensures Idle(db, Apply(db, op, now).db) && Apply(db, op, now).key == None
  {
    if Apply(db, op, now).db == db {
    } else if op.PatchObjectOp? {
      HeadersIdle(db, op.bucket, op.name, op.generation, op.headers, op.setMetadata, now);
    } else if op.DeleteBucketOp? {
      BucketGoneIdle(db, op.name);
    }
  }

  lemma BucketGoneIdle(db: Db, name: string)
    requires DbOk(db) && DeleteBucket(db, name).Ok?
    ensures Idle(db, DeleteBucket(db, name).value)
  {
  }

  lemma HeadersIdle(db: Db, bucket: string, name: string, generation: int, headers: Headers, setMetadata: bool, now: Instant)
    requires DbOk(db) && PatchObject(db, bucket, name, generation, headers, setMetadata, now).Ok?
    ensures Idle(db, PatchObject(db, bucket, name, generation, headers, setMetadata, now).value)
  {
    GetObjectFinds(db, bucket, name, generation);
  }

  lemma {:induction false} GatherReads(log: Log, db: Db, bucket: string, sources: seq<string>, contentType: string)
    requires Describes(log, db)
    ensures var all := Gather(db, bucket, sources, contentType);
            if forall s :: s in sources ==> LastOf(log, bucket, s).Some? then all.Ok? && all.value.0 == Concatenated(log, bucket, sources)
            else all == Err(ObjectNotFound)
    decreases |sources|
  {
    if sources != [] {
      ReadsThroughLog(log, db, bucket, sources[0], 0);
      match LastOf(log, bucket, sources[0])
      case None =>
      case Some(e) =>
        GatherReads(log, db, bucket, sources[1..], Default(contentType, db.objects[e.key].headers.contentType));
        assert forall s :: s in sources <==> s == sources[0] || s in sources[1..];
    }
  }

  /** Putting, composing and copying append one entry holding exactly the given, the concatenated or the
      source's bytes; deleting drops the entry of the generation it names; nothing else changes any
      generation. The names that are written must be among the allowed ones. */
  lemma EveryOperation(log: Log, db: Db, ok: string -> bool, op: Op, now: Instant)
    requires Describes(log, db) && Sound(db, ok) && Names(op, ok)
    ensures var out := Apply(db, op, now);
            Sound(out.db, ok) && Describes(Effect(log, op, out.key, now), out.db)
  {
    var out := Apply(db, op, now);
    match op
    case PutOp(bucket, name, contentType, data, meta) =>
      PutWrites(db, ok, bucket, name, contentType, data, meta, now);
      Wrap(log, db, out.db, ok, out.key, data, now);
    case ComposeOp(srcBucket, bucket, name, sources, contentType) =>
      GatherReads(log, db, srcBucket, sources, contentType);
      var all := Gather(db, srcBucket, sources, contentType);
      if 0 < |sources| <= 32 && all.Ok? {
        PutWrites(db, ok, bucket, name, all.value.1, all.value.0, None, now);
        Wrap(log, db, out.db, ok, out.key, all.value.0, now);
      } else {
        IdleDescribes(log, db, db, ok);
      }
    case CopyOp(srcBucket, srcName, srcGeneration, bucket, name) =>
      ReadsThroughLog(log, db, srcBucket, srcName, srcGeneration);
      var source := Pick(log, srcBucket, srcName, srcGeneration);
      if source.Some? {
        var row := db.objects[source.value.key];
        PutWrites(db, ok, bucket, name, row.headers.contentType, source.value.data, Some(row.headers), now);
        Wrap(log, db, out.db, ok, out.key, source.value.data, now);
      } else {
        IdleDescribes(log, db, db, ok);
      }
    case DeleteOp(bucket, name, generation) =>
      DeleteRemoves(db, ok, bucket, name, generation, now);
      if out.key.Some? { RemovedDescribes(log, db, out.db, ok, out.key.value); }
    case CreateBucketOp(_, _, _, _) => BucketOpIdle(db, ok, op, now); IdleDescribes(log, db, out.db, ok);
    case PatchBucketOp(_, _) => BucketOpIdle(db, ok, op, now); IdleDescribes(log, db, out.db, ok);
    case DeleteBucketOp(_) => BucketOpIdle(db, ok, op, now); IdleDescribes(log, db, out.db, ok);
    case PatchObjectOp(_, _, _, _, _) => BucketOpIdle(db, ok, op, now); IdleDescribes(log, db, out.db, ok);
  }

  lemma Wrap(log: Log, before: Db, after: Db, ok: string -> bool, key: Option<ObjectKey>, data: Bytes, now: Instant)
    requires Describes(log, before) && Sound(before, ok)
    requires match key case Some(k) => ok(k.name) && Wrote(before, after, k, data, now) case None => Idle(before, after)
    ensures Sound(after, ok)
    ensures Describes(if key.Some? then log + [Entry(key.value, data, now)] else log, after)
  {
    match key
    case Some(k) => WroteDescribes(log, before, after, ok, k, data, now);
    case None => IdleDescribes(log, before, after, ok);
  }

  /** The rows an operation leaves: as they were, with the new row `key`, or without the deleted row `key`. */
  ghost predicate Moves(before: Db, op: Op, now: Instant, out: Outcome) {
    match out.key
    case None => Idle(before, out.db)
    case Some(k) =>
      if op.DeleteOp? then GetObject(before, op.bucket, op.name, op.generation) == Some(k) && Removed(before, out.db, k)
      else Names(op, name => name == k.name) && Read(out.db, k).Some? && Wrote(before, out.db, k, Read(out.db, k).value, now)
  }

  lemma PutMoves(before: Db, op: Op, now: Instant, put: PutOutcome, k: ObjectKey, data: Bytes)
    requires PutLeaves(before, put, k, data, now)
    requires op.PutOp? || op.ComposeOp? || op.CopyOp?
    requires op.name == k.name
    ensures Moves(before, op, now, OfPut(put))
  {
  }

  lemma EveryOperationMoves(db: Db, ok: string -> bool, op: Op, now: Instant)
    requires Sound(db, ok) && Names(op, ok)
    ensures Moves(db, op, now, Apply(db, op, now))
  {
    match op
    case PutOp(bucket, name, contentType, data, meta) =>
      PutWrites(db, ok, bucket, name, contentType, data, meta, now);
      PutMoves(db, op, now, Put(db, bucket, name, contentType, data, meta, now), ObjectKey(bucket, name, NextGeneration(db, bucket, name)), data);
    case ComposeOp(srcBucket, bucket, name, sources, contentType) =>
      var all := Gather(db, srcBucket, sources, contentType);
      if 0 < |sources| <= 32 && all.Ok? {
        PutWrites(db, ok, bucket, name, all.value.1, all.value.0, None, now);
        PutMoves(db, op, now, Compose(db, srcBucket, bucket, name, sources, contentType, now), ObjectKey(bucket, name, NextGeneration(db, bucket, name)), all.value.0);
      }
    case CopyOp(srcBucket, srcName, srcGeneration, bucket, name) =>
      var src := GetObject(db, srcBucket, srcName, srcGeneration);
      if src.Some? && Read(db, src.value).Some? {
        var row, data := db.objects[src.value], Read(db, src.value).value;
        PutWrites(db, ok, bucket, name, row.headers.contentType, data, Some(row.headers), now);
        PutMoves(db, op, now, Copy(db, srcBucket, srcName, srcGeneration, bucket, name, now), ObjectKey(bucket, name, NextGeneration(db, bucket, name)), data);
      }
    case DeleteOp(bucket, name, generation) => DeleteRemoves(db, ok, bucket, name, generation, now);
    case CreateBucketOp(_, _, _, _) => BucketOpIdle(db, ok, op, now);
    case PatchBucketOp(_, _) => BucketOpIdle(db, ok, op, now);
    case DeleteBucketOp(_) => BucketOpIdle(db, ok, op, now);
    case PatchObjectOp(_, _, _, _, _) => BucketOpIdle(db, ok, op, now);
  }

  lemma MovesSound(db: Db, ok: string -> bool, op: Op, now: Instant, out: Outcome)
    requires Sound(db, ok) && Names(op, ok) && Moves(db, op, now, out)
    requires out.key.Some? ==> op.PutOp? || op.ComposeOp? || op.CopyOp? || op.DeleteOp?
    ensures Sound(out.db, ok)
  {
    forall o | o in out.db.objects
      ensures o.generation >= 1 && out.db.objects[o].blob == BlobPath(o.bucket, o.generation, out.db.layout.segments(o.name)) && ok(o.name)
    {
      if out.key != Some(o) {
        assert o in db.objects.Keys && Same(db, out.db, o);
      }
    }
  }

  // ---------- headers ----------

  function FirstNonEmpty(texts: seq<string>, d: string): string {
    if texts == [] then d else if texts[0] != "" then texts[0] else FirstNonEmpty(texts[1..], d)
  }

  function TypesOf(db: Db, bucket: string, sources: seq<string>): seq<string> {
    if sources == [] then []
    else
      var k := GetObject(db, bucket, sources[0], 0);
      [if k.Some? && k.value in db.objects then db.objects[k.value].headers.contentType else ""] + TypesOf(db, bucket, sources[1..])
  }

  lemma {:induction false} GatherType(db: Db, bucket: string, sources: seq<string>, contentType: string)
    requires Gather(db, bucket, sources, contentType).Ok?
    ensures Gather(db, bucket, sources, contentType).value.1 == FirstNonEmpty([contentType] + TypesOf(db, bucket, sources), "")
    decreases |sources|
  {
    var types := TypesOf(db, bucket, sources);
    assert ([contentType] + types)[1..] == types;
    if sources != [] {
      var own := db.objects[GetObject(db, bucket, sources[0], 0).value].headers.contentType;
      GatherType(db, bucket, sources[1..], Default(contentType, own));
      var rest := TypesOf(db, bucket, sources[1..]);
      assert types == [own] + rest && ([own] + rest)[1..] == rest && ([Default(contentType, own)] + rest)[1..] == rest;
    }
  }

  lemma PutStores(db: Db, bucket: string, name: string, contentType: string, data: Bytes, meta: Option<Headers>, now: Instant)
    requires Put(db, bucket, name, contentType, data, meta, now).result.Ok?
    ensures var put := Put(db, bucket, name, contentType, data, meta, now);
            put.result.value in put.db.objects && put.db.objects[put.result.value].headers == PutHeaders(contentType, meta)
  {
    PutIsPutFile(db, bucket, name, contentType, data, meta, now);
  }

  /** A composed object has the given content type, else the first one a source has, else the default; and no
      other header. */
  lemma ComposeHeaders(db: Db, srcBucket: string, bucket: string, name: string, sources: seq<string>, contentType: string, now: Instant)
    requires Compose(db, srcBucket, bucket, name, sources, contentType, now).result.Ok?
    ensures var out := Compose(db, srcBucket, bucket, name, sources, contentType, now);
            && out.result.value in out.db.objects
            && out.db.objects[out.result.value].headers ==
               Headers(FirstNonEmpty([contentType] + TypesOf(db, srcBucket, sources), "application/octet-stream"), map[], "", "", "", "")
  {
    var all := Gather(db, srcBucket, sources, contentType).value;
    GatherType(db, srcBucket, sources, contentType);
    FirstNonEmptyDefault([contentType] + TypesOf(db, srcBucket, sources), "application/octet-stream");
    PutStores(db, bucket, name, all.1, all.0, None, now);
  }

  lemma {:induction false} FirstNonEmptyDefault(texts: seq<string>, d: string)
    ensures FirstNonEmpty(texts, d) == Default(FirstNonEmpty(texts, ""), d)
  {
    if texts != [] { FirstNonEmptyDefault(texts[1..], d); }
  }

  /** A copy has all headers of its source; only an empty content type becomes the default. */
  lemma CopyHeaders(db: Db, srcBucket: string, srcName: string, srcGeneration: int, bucket: string, name: string, now: Instant)
    requires Copy(db, srcBucket, srcName, srcGeneration, bucket, name, now).result.Ok?
    ensures var out, src := Copy(db, srcBucket, srcName, srcGeneration, bucket, name, now), GetObject(db, srcBucket, srcName, srcGeneration);
            && src.Some? && src.value in db.objects && out.result.value in out.db.objects
            && out.db.objects[out.result.value].headers ==
               db.objects[src.value].headers.(contentType := Default(db.objects[src.value].headers.contentType, "application/octet-stream"))
  {
    var k := GetObject(db, srcBucket, srcName, srcGeneration).value;
    PutStores(db, bucket, name, db.objects[k].headers.contentType, Read(db, k).value, Some(db.objects[k].headers), now);
  }
}
