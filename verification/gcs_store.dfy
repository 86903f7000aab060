/** The object half of the store: tables and files updated in place by methods, each tied to the operation
    of GcsModel that specifies it. */
module GcsStore {
  import opened Basics
  import opened Text
  import opened Ordering
  import opened GcsPaths
  import opened GcsModel
  import GcsListing

  function LiveNames(db: Db, bucket: string): set<string> {
    set k | k in db.objects && k.bucket == bucket :: k.name
  }

  /** One more source, read after those before it. */
  lemma {:induction false} GatherSnoc(db: Db, bucket: string, sources: seq<string>, contentType: string, last: string)
    requires Gather(db, bucket, sources, contentType).Ok?
    ensures var sofar := Gather(db, bucket, sources, contentType).value;
            Gather(db, bucket, sources + [last], contentType) ==
            match GetObject(db, bucket, last, 0)
            case None => Err(ObjectNotFound)
            case Some(k) =>
              match Read(db, k)
              case None => Err(ReadFailed)
              case Some(data) => Ok((sofar.0 + data, Default(sofar.1, db.objects[k].headers.contentType)))
    decreases |sources|
  {
    if sources == [] {
      assert ([] + [last])[1..] == [];
      if GetObject(db, bucket, last, 0).Some? && Read(db, GetObject(db, bucket, last, 0).value).Some? {
        var data := Read(db, GetObject(db, bucket, last, 0).value).value;
        assert data + [] == [] + data;
      }
    } else {
      var k := GetObject(db, bucket, sources[0], 0).value;
      var data := Read(db, k).value;
      var ct := Default(contentType, db.objects[k].headers.contentType);
      assert (sources + [last])[1..] == sources[1..] + [last];
      GatherSnoc(db, bucket, sources[1..], ct, last);
      var rest := Gather(db, bucket, sources[1..], ct).value;
      if GetObject(db, bucket, last, 0).Some? && Read(db, GetObject(db, bucket, last, 0).value).Some? {
        var more := Read(db, GetObject(db, bucket, last, 0).value).value;
        assert data + (rest.0 + more) == (data + rest.0) + more;
      }
    }
  }

  lemma {:induction false} GatherStops(db: Db, bucket: string, sources: seq<string>, contentType: string, n: nat)
    requires n <= |sources| && Gather(db, bucket, sources[..n], contentType).Err?
    ensures Gather(db, bucket, sources, contentType) == Gather(db, bucket, sources[..n], contentType)
    decreases n
  {
    if n > 0 {
      assert sources[..n][1..] == sources[1..][..n - 1];
      var k := GetObject(db, bucket, sources[0], 0);
      if k.Some? && Read(db, k.value).Some? {
        GatherStops(db, bucket, sources[1..], Default(contentType, db.objects[k.value].headers.contentType), n - 1);
      }
    }
  }

  class Store {
    const layout: Layout
    var buckets: map<string, Bucket>
    var objects: map<ObjectKey, ObjectRow>
    var files: map<BlobPath, Bytes>
    var dirs: set<BlobPath>

    ghost function State(): Db
      reads this
    {
      Db(layout, buckets, objects, files, dirs)
    }

    ghost predicate Valid()
      reads this
    {
      DbOk(State())
    }

    constructor (layout: Layout)
      ensures this.layout == layout && Valid() && State() == Db(layout, map[], map[], map[], {})
    {
      this.layout := layout;
      buckets, objects, files, dirs := map[], map[], map[], {};
    }

    method CreateBucket(rawName: string, rawProject: string, location: string, storageClass: string, now: Instant) returns (r: Result<bool, Error>)
      requires Valid()
      modifies this
      ensures Valid()
      ensures match GcsModel.CreateBucket(old(State()), TrimSpace(rawName), TrimSpace(rawProject), location, storageClass, now)
              case Err(e) => r == Err(e) && State() == old(State())
              case Ok(db) => r == Ok(TrimSpace(rawName) !in old(buckets)) && State() == db
    {
      var name, project := TrimSpace(rawName), TrimSpace(rawProject);
      if name == "" || project == "" { return Err(NameRequired); }
      if !ValidBucketName(name) { return Err(InvalidBucketName); }
      if name in buckets { return Ok(false); }
      buckets := buckets[name := Bucket(project, Default(location, "US"), Default(storageClass, "STANDARD"), map[], 1, 0, false, None, now, now)];
      r := Ok(true);
    }

    /** The retention half of PatchBucket. */
    method PatchPolicy(current: Bucket, retention: RetentionPatch, now: Instant) returns (r: Result<Bucket, Error>)
      ensures r == PatchRetention(current, retention, now)
    {
      var b := current;
      if b.locked && (retention.seconds < b.retentionSeconds || retention.seconds == 0) { return Err(RetentionPolicyLocked); }
      var prevPeriod := b.retentionSeconds;
      b := b.(retentionSeconds := retention.seconds);
      if retention.lock || b.locked { b := b.(locked := true); }
      if b.retentionSeconds > 0 && (b.effectiveTime.None? || prevPeriod == 0) { b := b.(effectiveTime := Some(now)); }
      if b.retentionSeconds == 0 { b := b.(effectiveTime := None, locked := false); }
      if retention.effectiveTime.Some? { b := b.(effectiveTime := retention.effectiveTime); }
      r := Ok(b);
    }

    method PatchBucket(name: string, patch: BucketPatch, now: Instant) returns (r: Result<Bucket, Error>)
      requires Valid()
      modifies this
      ensures Valid()
      ensures match GcsModel.PatchBucket(old(State()), name, patch, now)
              case Err(e) => r == Err(e) && State() == old(State())
              case Ok(db) => State() == db && name in buckets && r == Ok(buckets[name])
    {
      if name !in buckets { return Err(BucketNotFound); }
      var b := buckets[name];
      if patch.location.Some? && patch.location.value != "" { b := b.(location := patch.location.value); }
      if patch.storageClass.Some? && patch.storageClass.value != "" { b := b.(storageClass := patch.storageClass.value); }
      if patch.labels.Some? { b := b.(labels := patch.labels.value); }
      if patch.retention.Some? {
        var policy := PatchPolicy(b, patch.retention.value, now);
        if policy.Err? { return Err(policy.error); }
        b := policy.value;
      }
      b := b.(metageneration := b.metageneration + 1, updatedAt := now);
      buckets := buckets[name := b];
      r := Ok(b);
    }

    method DeleteBucket(name: string) returns (r: Result<bool, Error>)
      requires Valid()
      modifies this
      ensures Valid()
      ensures match GcsModel.DeleteBucket(old(State()), name)
              case Err(e) => r == Err(e) && State() == old(State())
              case Ok(db) => r == Ok(name in old(buckets)) && State() == db
    {
      if exists k :: k in objects && k.bucket == name { return Err(BucketNotEmpty); }
      if name !in buckets { return Ok(false); }
      buckets := buckets - {name};
      files := map p | p in files && p.bucket != name :: files[p];
      dirs := set p | p in dirs && p.bucket != name;
      r := Ok(true);
    }

    /** checkObjectRetention. */
    method CheckObjectRetention(bucket: string, name: string, generation: int, now: Instant) returns (refused: bool)
      requires Valid()
      ensures refused == Retained(State(), bucket, name, generation, now)
    {
      if bucket !in buckets || buckets[bucket].retentionSeconds <= 0 { return false; }
      var o := Lookup(bucket, name, generation);
      if o.None? { return false; }
      GetObjectFinds(State(), bucket, name, generation);
      refused := now - objects[o.value].createdAt < Seconds(buckets[bucket].retentionSeconds);
    }

    /** GetObject: `ORDER BY generation DESC LIMIT 1` when no generation is named. */
    method Lookup(bucket: string, name: string, generation: int) returns (r: Option<ObjectKey>)
      ensures r == GetObject(State(), bucket, name, generation)
    {
      if generation > 0 {
        var k := ObjectKey(bucket, name, generation);
        return if k in objects then Some(k) else None;
      }
      var generations := set k | k in objects && k.bucket == bucket && k.name == name :: k.generation;
      assert generations == Generations(State(), bucket, name);
      if generations == {} { return None; }
      r := Some(ObjectKey(bucket, name, MaxOf(generations)));
    }

    method ReadObjectBytes(k: ObjectKey) returns (data: Option<Bytes>)
      ensures data == Read(State(), k)
    {
      data := if k in objects && objects[k].blob in files then Some(files[objects[k].blob]) else None;
    }

    method PutObjectBytesMeta(rawBucket: string, name: string, contentType: string, data: Bytes, meta: Option<Headers>, now: Instant)
      returns (r: Result<ObjectKey, Error>)
      requires Valid()
      modifies this
      ensures Valid()
      ensures PutOutcome(State(), r) == Put(old(State()), TrimSpace(rawBucket), name, contentType, data, meta, now)
    {
      var bucket := TrimSpace(rawBucket);
      if !ValidBucketName(bucket) { return Err(InvalidBucketName); }
      if bucket !in buckets { return Err(BucketNotFound); }
      var refused := CheckObjectRetention(bucket, name, 0, now);
      if refused { return Err(RetentionPolicyNotMet); }
      if !layout.allowed(name) { return Err(PathEscapesRoot); }
      r := WriteObject(bucket, name, PutHeaders(contentType, meta), data, now);
    }

    /** Choose the next generation, make the directories, write the file and insert the row. */
    method WriteObject(bucket: string, name: string, headers: Headers, data: Bytes, now: Instant) returns (r: Result<ObjectKey, Error>)
      requires Valid() && bucket in buckets
      modifies this
      ensures Valid()
      ensures PutOutcome(State(), r) == PutFile(old(State()), ObjectKey(bucket, name, NextGeneration(old(State()), bucket, name)), headers, data, now)
    {
      var generations := set k | k in objects && k.bucket == bucket && k.name == name :: k.generation;
      assert generations == Generations(State(), bucket, name);
      NextGenerationIsNew(State(), bucket, name);
      var key := ObjectKey(bucket, name, if generations == {} then 1 else MaxOf(generations) + 1);
      var path := BlobPath(bucket, key.generation, layout.segments(name));
      var parents := Parents(path);
      if exists p :: p in parents && p in files { return Err(CreateDirFailed); }
      dirs := dirs + parents;
      if path in dirs { return Err(WriteFailed); }
      files := files[path := data];
      objects := objects[key := ObjectRow(|data|, headers, path, 1, now, now)];
      r := Ok(key);
    }

    method DeleteObject(bucket: string, name: string, generation: int, now: Instant) returns (r: Result<bool, Error>)
      requires Valid()
      modifies this
      ensures Valid()
      ensures DeleteOutcome(State(), r) == Delete(old(State()), bucket, name, generation, now)
    {
      var found := Lookup(bucket, name, generation);
      if found.None? { return Ok(false); }
      var o := found.value;
      var refused := CheckObjectRetention(bucket, name, o.generation, now);
      if refused { return Err(RetentionPolicyNotMet); }
      GetObjectFinds(State(), bucket, name, generation);
      var blob := objects[o].blob;
      objects := objects - {o};
      files := files - {blob};
      r := Ok(true);
    }

    method Patched(current: Headers, patch: Headers, setMetadata: bool) returns (h: Headers)
      ensures h == PatchHeaders(current, patch, setMetadata)
    {
      h := current;
      if patch.contentType != "" { h := h.(contentType := patch.contentType); }
      if setMetadata { h := h.(metadata := patch.metadata); }
      if patch.cacheControl != "" { h := h.(cacheControl := patch.cacheControl); }
      if patch.contentDisposition != "" { h := h.(contentDisposition := patch.contentDisposition); }
      if patch.contentEncoding != "" { h := h.(contentEncoding := patch.contentEncoding); }
      if patch.contentLanguage != "" { h := h.(contentLanguage := patch.contentLanguage); }
    }

    method PatchObjectMetadata(bucket: string, name: string, generation: int, patch: Headers, setMetadata: bool, now: Instant) returns (r: Result<ObjectRow, Error>)
      requires Valid()
      modifies this
      ensures Valid()
      ensures match PatchObject(old(State()), bucket, name, generation, patch, setMetadata, now)
              case Err(e) => r == Err(e) && State() == old(State())
              case Ok(db) => State() == db && r.Ok? && GetObject(old(State()), bucket, name, generation).Some?
                             && GetObject(old(State()), bucket, name, generation).value in objects
                             && r.value == objects[GetObject(old(State()), bucket, name, generation).value]
    {
      var found := Lookup(bucket, name, generation);
      GetObjectFinds(State(), bucket, name, generation);
      if found.None? { return Err(ObjectNotFound); }
      var o := objects[found.value];
      var h := Patched(o.headers, patch, setMetadata);
      o := o.(headers := h, metageneration := o.metageneration + 1, updatedAt := now);
      objects := objects[found.value := o];
      r := Ok(o);
    }

    /** The first loop of ComposeObject: read every source, and settle the content type. */
    method GatherParts(bucket: string, sources: seq<string>, givenType: string) returns (r: Result<(Bytes, string), Error>)
      requires Valid()
      ensures r == Gather(State(), bucket, sources, givenType)
    {
      var out: Bytes, contentType := [], givenType;
      for i := 0 to |sources|
        invariant Gather(State(), bucket, sources[..i], givenType) == Ok((out, contentType))
      {
        assert sources[..i + 1] == sources[..i] + [sources[i]];
        GatherSnoc(State(), bucket, sources[..i], givenType, sources[i]);
        var o := Lookup(bucket, sources[i], 0);
        if o.None? {
          GatherStops(State(), bucket, sources, givenType, i + 1);
          return Err(ObjectNotFound);
        }
        var data := ReadObjectBytes(o.value);
        if data.None? {
          GatherStops(State(), bucket, sources, givenType, i + 1);
          return Err(ReadFailed);
        }
        out := out + data.value;
        if contentType == "" { contentType := objects[o.value].headers.contentType; }
      }
      assert sources[..|sources|] == sources;
      r := Ok((out, contentType));
    }

    method ComposeObject(bucket: string, dest: string, sources: seq<string>, contentType: string, now: Instant) returns (r: Result<ObjectKey, Error>)
      requires Valid()
      modifies this
      ensures Valid()
      ensures PutOutcome(State(), r) == Compose(old(State()), bucket, TrimSpace(bucket), dest, sources, contentType, now)
    {
      if |sources| == 0 { return Err(NoSources); }
      if |sources| > 32 { return Err(TooManySources); }
      var parts := GatherParts(bucket, sources, contentType);
      if parts.Err? { return Err(parts.error); }
      r := PutObjectBytesMeta(bucket, dest, parts.value.1, parts.value.0, None, now);
    }

    method CopyObject(srcBucket: string, srcName: string, srcGeneration: int, dstBucket: string, dstName: string, now: Instant)
      returns (r: Result<ObjectKey, Error>)
      requires Valid()
      modifies this
      ensures Valid()
      ensures PutOutcome(State(), r) == Copy(old(State()), srcBucket, srcName, srcGeneration, TrimSpace(dstBucket), dstName, now)
    {
      var src := Lookup(srcBucket, srcName, srcGeneration);
      if src.None? { return Err(ObjectNotFound); }
      var data := ReadObjectBytes(src.value);
      if data.None? { return Err(ReadFailed); }
      var headers := objects[src.value].headers;
      r := PutObjectBytesMeta(dstBucket, dstName, headers.contentType, data.value, Some(headers), now);
    }

    /** ListObjectsDelimited over the latest generation of every name, in name order. */
    method ListObjectsDelimited(bucket: string, prefix: string, delimiter: string) returns (items: seq<ObjectKey>, prefixes: seq<string>)
      ensures var out := GcsListing.ListNames(SortedSeq(LiveNames(State(), bucket)), prefix, delimiter);
              && prefixes == out.prefixes && |items| == |out.items|
              && forall i :: 0 <= i < |items| ==> GetObject(State(), bucket, out.items[i], 0) == Some(items[i]) && items[i] in objects
    {
      var names := set k | k in objects && k.bucket == bucket :: k.name;
      assert names == LiveNames(State(), bucket);
      var out := GcsListing.ListObjectsDelimited(SortedSeq(names), prefix, delimiter);
      GcsListing.ListingMeaning(SortedSeq(names), prefix, delimiter);
      prefixes := out.prefixes;
      items := [];
      for i := 0 to |out.items|
        invariant |items| == i
        invariant forall j :: 0 <= j < i ==> GetObject(State(), bucket, out.items[j], 0) == Some(items[j]) && items[j] in objects
      {
        var o := Lookup(bucket, out.items[i], 0);
        assert out.items[i] in names;
        GetObjectFinds(State(), bucket, out.items[i], 0);
        items := items + [o.value];
      }
    }
  }
}
