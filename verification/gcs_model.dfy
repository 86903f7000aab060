/** Buckets, object generations and the files that hold their bytes, and the store's operations on
    them. */
module GcsModel {
  import opened Basics
  import opened Text
  import opened GcsPaths

  datatype Bucket = Bucket(
    projectId: string, location: string, storageClass: string, labels: map<string, string>, metageneration: int,
    retentionSeconds: int, locked: bool, effectiveTime: Option<Instant>, createdAt: Instant, updatedAt: Instant)

  datatype Headers = Headers(
    contentType: string, metadata: map<string, string>, cacheControl: string, contentDisposition: string,
    contentEncoding: string, contentLanguage: string)

  /** A file or directory below the data root: bucket, generation, then the segments of the name. */
  datatype BlobPath = BlobPath(bucket: string, generation: nat, segments: seq<string>)

  datatype ObjectKey = ObjectKey(bucket: string, name: string, generation: nat)

  datatype ObjectRow = ObjectRow(size: nat, headers: Headers, blob: BlobPath, metageneration: int, createdAt: Instant, updatedAt: Instant)

  /** How names become paths. The store uses `LAYOUT`; most of what follows holds for any other. */
  datatype Layout = Layout(segments: string -> seq<string>, allowed: string -> bool)

  const LAYOUT: Layout := Layout(name => Segments(name), name => !Contains(Sanitize(name), ".."))

  datatype Db = Db(
    layout: Layout, buckets: map<string, Bucket>, objects: map<ObjectKey, ObjectRow>,
    files: map<BlobPath, Bytes>, dirs: set<BlobPath>)

  datatype Error =
    | NameRequired | InvalidBucketName | BucketNotFound | BucketNotEmpty | RetentionPolicyLocked | RetentionPolicyNotMet
    | PathEscapesRoot | CreateDirFailed | WriteFailed | ObjectNotFound | ReadFailed | NoSources | TooManySources

  ghost predicate DbOk(db: Db) {
    forall k :: k in db.objects ==>
      && k.generation >= 1 && k.bucket in db.buckets
      && db.objects[k].blob == BlobPath(k.bucket, k.generation, db.layout.segments(k.name))
  }

  // ---------- generations ----------

  function Generations(db: Db, bucket: string, name: string): set<nat> {
    set k | k in db.objects && k.bucket == bucket && k.name == name :: k.generation
  }

  function NextGeneration(db: Db, bucket: string, name: string): nat {
    if Generations(db, bucket, name) == {} then 1 else MaxOf(Generations(db, bucket, name)) + 1
  }

  /** Generation 0, or any that is not positive, means the latest. */
  function GetObject(db: Db, bucket: string, name: string, generation: int): Option<ObjectKey> {
    if generation > 0 then
      var k := ObjectKey(bucket, name, generation);
      if k in db.objects then Some(k) else None
    else if Generations(db, bucket, name) == {} then None
    else Some(ObjectKey(bucket, name, MaxOf(Generations(db, bucket, name))))
  }

  lemma GetObjectFinds(db: Db, bucket: string, name: string, generation: int)
    ensures var k := GetObject(db, bucket, name, generation);
            k.Some? ==> k.value in db.objects && k.value.bucket == bucket && k.value.name == name
                        && (generation > 0 ==> k.value.generation == generation)
                        && (generation <= 0 ==> forall o :: o in db.objects && o.bucket == bucket && o.name == name ==> o.generation <= k.value.generation)
    ensures generation <= 0 && GetObject(db, bucket, name, generation).None? ==>
              forall o :: o in db.objects ==> !(o.bucket == bucket && o.name == name)
  {
    if generation <= 0 && Generations(db, bucket, name) != {} {
      var m := MaxOf(Generations(db, bucket, name));
      var o :| o in db.objects && o.bucket == bucket && o.name == name && o.generation == m;
      assert o == ObjectKey(bucket, name, m);
      forall o | o in db.objects && o.bucket == bucket && o.name == name ensures o.generation <= m {
        assert o.generation in Generations(db, bucket, name);
      }
    } else if generation <= 0 {
      forall o | o in db.objects ensures !(o.bucket == bucket && o.name == name) {
        assert o.bucket == bucket && o.name == name ==> o.generation in Generations(db, bucket, name);
      }
    }
  }

  lemma NextGenerationIsNew(db: Db, bucket: string, name: string)
    requires DbOk(db)
    ensures NextGeneration(db, bucket, name) >= 1
    ensures forall o :: o in db.objects && o.bucket == bucket && o.name == name ==> o.generation < NextGeneration(db, bucket, name)
  {
    forall o | o in db.objects && o.bucket == bucket && o.name == name ensures o.generation < NextGeneration(db, bucket, name) {
      assert o.generation in Generations(db, bucket, name);
    }
    if Generations(db, bucket, name) != {} {
      var o :| o in db.objects && o.bucket == bucket && o.name == name && o.generation == MaxOf(Generations(db, bucket, name));
    }
  }

  /** The bytes a generation reads as. */
  function Read(db: Db, k: ObjectKey): Option<Bytes> {
    if k in db.objects && db.objects[k].blob in db.files then Some(db.files[db.objects[k].blob]) else None
  }

  // ---------- retention ----------

  /** checkObjectRetention refuses: the object is younger than the period, as a 64-bit duration. */
  predicate Retained(db: Db, bucket: string, name: string, generation: int, now: Instant) {
    && bucket in db.buckets && db.buckets[bucket].retentionSeconds > 0
    && var k := GetObject(db, bucket, name, generation);
    k.Some? && k.value in db.objects && now - db.objects[k.value].createdAt < Seconds(db.buckets[bucket].retentionSeconds)
  }

  datatype RetentionPatch = RetentionPatch(seconds: int, lock: bool, effectiveTime: Option<Instant>)

  function PatchRetention(b: Bucket, retention: RetentionPatch, now: Instant): Result<Bucket, Error> {
    if b.locked && (retention.seconds < b.retentionSeconds || retention.seconds == 0) then Err(RetentionPolicyLocked)
    else
      var started := retention.seconds > 0 && (b.effectiveTime.None? || b.retentionSeconds == 0);
      var cleared := retention.seconds == 0;
      Ok(b.(retentionSeconds := retention.seconds,
            locked := (retention.lock || b.locked) && !cleared,
            effectiveTime := if retention.effectiveTime.Some? then retention.effectiveTime
                             else if cleared then None
                             else if started then Some(now)
                             else b.effectiveTime))
  }

  datatype BucketPatch = BucketPatch(
    location: Option<string>, storageClass: Option<string>, labels: Option<map<string, string>>, retention: Option<RetentionPatch>)

  function PatchedBucket(b: Bucket, patch: BucketPatch, now: Instant): Result<Bucket, Error> {
    match (if patch.retention.Some? then PatchRetention(b, patch.retention.value, now) else Ok(b))
    case Err(e) => Err(e)
    case Ok(b1) =>
      Ok(b1.(location := if patch.location.Some? && patch.location.value != "" then patch.location.value else b.location,
             storageClass := if patch.storageClass.Some? && patch.storageClass.value != "" then patch.storageClass.value else b.storageClass,
             labels := if patch.labels.Some? then patch.labels.value else b.labels,
             metageneration := b.metageneration + 1, updatedAt := now))
  }

  function PatchBucket(db: Db, name: string, patch: BucketPatch, now: Instant): Result<Db, Error> {
    if name !in db.buckets then Err(BucketNotFound)
    else
      match PatchedBucket(db.buckets[name], patch, now)
      case Err(e) => Err(e)
      case Ok(b) => Ok(db.(buckets := db.buckets[name := b]))
  }

  // ---------- buckets ----------

  function Default(s: string, d: string): string {
    if s == "" then d else s
  }

  /** INSERT OR IGNORE: an existing bucket stays as it is. */
  function CreateBucket(db: Db, name: string, project: string, location: string, storageClass: string, now: Instant): Result<Db, Error> {
    if name == "" || project == "" then Err(NameRequired)
    else if !ValidBucketName(name) then Err(InvalidBucketName)
    else if name in db.buckets then Ok(db)
    else Ok(db.(buckets := db.buckets[name :=
                  Bucket(project, Default(location, "US"), Default(storageClass, "STANDARD"), map[], 1, 0, false, None, now, now)]))
  }

  predicate Empty(db: Db, name: string) {
    forall k :: k in db.objects ==> k.bucket != name
  }

  /** Deleting an empty bucket also removes its directory. */
  function DeleteBucket(db: Db, name: string): Result<Db, Error> {
    if !Empty(db, name) then Err(BucketNotEmpty)
    else if name !in db.buckets then Ok(db)
    else Ok(db.(buckets := db.buckets - {name},
                files := map p | p in db.files && p.bucket != name :: db.files[p],
                dirs := set p | p in db.dirs && p.bucket != name))
  }

  // ---------- objects ----------

  /** The directories above a path. */
  function Parents(path: BlobPath): set<BlobPath> {
    set j | 1 <= j < |path.segments| :: path.(segments := path.segments[..j])
  }

  datatype PutOutcome = PutOutcome(db: Db, result: Result<ObjectKey, Error>)

  function PutHeaders(contentType: string, meta: Option<Headers>): Headers {
    var ct := Default(contentType, "application/octet-stream");
    match meta
    case None => Headers(ct, map[], "", "", "", "")
    case Some(h) => h.(contentType := Default(h.contentType, ct))
  }

  /** Write the bytes under the next generation's path, then insert its row. */
  function Put(db: Db, bucket: string, name: string, contentType: string, data: Bytes, meta: Option<Headers>, now: Instant): PutOutcome {
    if !ValidBucketName(bucket) then PutOutcome(db, Err(InvalidBucketName))
    else if bucket !in db.buckets then PutOutcome(db, Err(BucketNotFound))
    else if Retained(db, bucket, name, 0, now) then PutOutcome(db, Err(RetentionPolicyNotMet))
    else if !db.layout.allowed(name) then PutOutcome(db, Err(PathEscapesRoot))
    else PutFile(db, ObjectKey(bucket, name, NextGeneration(db, bucket, name)), PutHeaders(contentType, meta), data, now)
  }

  function PutFile(db: Db, key: ObjectKey, headers: Headers, data: Bytes, now: Instant): PutOutcome {
    var path := BlobPath(key.bucket, key.generation, db.layout.segments(key.name));
    var parents := Parents(path);
    if exists p :: p in parents && p in db.files then PutOutcome(db, Err(CreateDirFailed))
    else
      var db1 := db.(dirs := db.dirs + parents);
      if path in db1.dirs then PutOutcome(db1, Err(WriteFailed))
      else
        PutOutcome(db1.(files := db1.files[path := data],
                        objects := db1.objects[key := ObjectRow(|data|, headers, path, 1, now, now)]),
                   Ok(key))
  }

  datatype DeleteOutcome = DeleteOutcome(db: Db, result: Result<bool, Error>)

  function Delete(db: Db, bucket: string, name: string, generation: int, now: Instant): DeleteOutcome {
    match GetObject(db, bucket, name, generation)
    case None => DeleteOutcome(db, Ok(false))
    case Some(k) =>
      if Retained(db, bucket, name, k.generation, now) then DeleteOutcome(db, Err(RetentionPolicyNotMet))
      else DeleteOutcome(RemoveRow(db, k), Ok(true))
  }

  function RemoveRow(db: Db, k: ObjectKey): Db {
    if k in db.objects then db.(objects := db.objects - {k}, files := db.files - {db.objects[k].blob}) else db
  }

  /** PatchObjectMetadata rewrites the headers of a row and nothing else. */
  function PatchHeaders(h: Headers, patch: Headers, setMetadata: bool): Headers {
    Headers(Default(patch.contentType, h.contentType), if setMetadata then patch.metadata else h.metadata,
            Default(patch.cacheControl, h.cacheControl), Default(patch.contentDisposition, h.contentDisposition),
            Default(patch.contentEncoding, h.contentEncoding), Default(patch.contentLanguage, h.contentLanguage))
  }

  function PatchObject(db: Db, bucket: string, name: string, generation: int, patch: Headers, setMetadata: bool, now: Instant): Result<Db, Error> {
    match GetObject(db, bucket, name, generation)
    case None => Err(ObjectNotFound)
    case Some(k) =>
      if k !in db.objects then Err(ObjectNotFound)
      else
        var row := db.objects[k];
        Ok(db.(objects := db.objects[k := row.(headers := PatchHeaders(row.headers, patch, setMetadata),
                                               metageneration := row.metageneration + 1, updatedAt := now)]))
  }

  // ---------- compose and copy ----------

  /** The bytes of the sources' latest generations, one after the other, and the content type to use. */
  function Gather(db: Db, bucket: string, sources: seq<string>, contentType: string): Result<(Bytes, string), Error>
    decreases |sources|
  {
    if sources == [] then Ok(([], contentType))
    else
      match GetObject(db, bucket, sources[0], 0)
      case None => Err(ObjectNotFound)
      case Some(k) =>
        match Read(db, k)
        case None => Err(ReadFailed)
        case Some(data) =>
          match Gather(db, bucket, sources[1..], Default(contentType, db.objects[k].headers.contentType))
          case Err(e) => Err(e)
          case Ok(rest) => Ok((data + rest.0, rest.1))
  }

  /** Sources are looked up in `srcBucket`; the result is put into `bucket`, the same name with the white
      space around it removed. */
  function Compose(db: Db, srcBucket: string, bucket: string, dest: string, sources: seq<string>, contentType: string, now: Instant): PutOutcome {
    if |sources| == 0 then PutOutcome(db, Err(NoSources))
    else if |sources| > 32 then PutOutcome(db, Err(TooManySources))
    else
      match Gather(db, srcBucket, sources, contentType)
      case Err(e) => PutOutcome(db, Err(e))
      case Ok(all) => Put(db, bucket, dest, all.1, all.0, None, now)
  }

  function Copy(db: Db, srcBucket: string, srcName: string, srcGeneration: int, dstBucket: string, dstName: string, now: Instant): PutOutcome {
    match GetObject(db, srcBucket, srcName, srcGeneration)
    case None => PutOutcome(db, Err(ObjectNotFound))
    case Some(k) =>
      match Read(db, k)
      case None => PutOutcome(db, Err(ReadFailed))
      case Some(data) => Put(db, dstBucket, dstName, db.objects[k].headers.contentType, data, Some(db.objects[k].headers), now)
  }
}
