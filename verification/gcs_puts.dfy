/** Which puts the file system refuses. Object names are turned into paths, so a name cannot have a file where a
    longer name needs a directory, nor a directory where a shorter one needs a file; and directories stay when
    their files go. */
module GcsPuts {
  import opened Basics
  import opened Text
  import opened GcsPaths
  import opened GcsModel
  import opened GcsContent
  import opened GcsRefinement
  import opened GcsRuns

  /** The generations put so far whose bucket has not been deleted since, after one more operation. */
  function PutsAfter(puts: set<ObjectKey>, op: Op, out: Outcome): set<ObjectKey> {
    var all := if out.key.Some? && !op.DeleteOp? then puts + {out.key.value} else puts;
    set k | k in all && k.bucket in out.db.buckets
  }

  function Puts(puts: set<ObjectKey>, db: Db, steps: seq<Step>): set<ObjectKey>
    decreases |steps|
  {
    if steps == [] then puts
    else
      var out := Apply(db, steps[0].op, steps[0].now);
      Puts(PutsAfter(puts, steps[0].op, out), out.db, steps[1..])
  }

  function PathOf(layout: Layout, k: ObjectKey): BlobPath {
    BlobPath(k.bucket, k.generation, layout.segments(k.name))
  }

  ghost predicate IsFile(db: Db, p: BlobPath) {
    exists k :: k in db.objects && PathOf(db.layout, k) == p
  }

  ghost predicate IsDirectory(layout: Layout, puts: set<ObjectKey>, p: BlobPath) {
    exists k :: k in puts && p in Parents(PathOf(layout, k))
  }

  /** Files are those of the live rows; directories are those above anything put. */
  ghost predicate Filed(db: Db, puts: set<ObjectKey>) {
    && (forall p :: p in db.files <==> IsFile(db, p))
    && (forall p :: p in db.dirs <==> IsDirectory(db.layout, puts, p))
    && (forall k :: k in puts ==> k.bucket in db.buckets)
  }

  // ---------- every operation keeps it ----------

  lemma ParentsOfParent(path: BlobPath, longer: BlobPath)
    requires path in Parents(longer)
    ensures Parents(path) <= Parents(longer)
  {
    forall p | p in Parents(path) ensures p in Parents(longer) {
      var j :| 1 <= j < |path.segments| && p == path.(segments := path.segments[..j]);
      assert path.segments[..j] == longer.segments[..j];
    }
  }

  lemma WrittenFiled(db: Db, puts: set<ObjectKey>, k: ObjectKey, headers: Headers, data: Bytes, now: Instant)
    requires Filed(db, puts) && k.bucket in db.buckets && PutFile(db, k, headers, data, now).result.Ok?
    ensures Filed(PutFile(db, k, headers, data, now).db, puts + {k})
  {
    var after := PutFile(db, k, headers, data, now).db;
    assert after.objects.Keys == db.objects.Keys + {k} && after.files.Keys == db.files.Keys + {PathOf(db.layout, k)};
    forall p ensures IsFile(after, p) <==> IsFile(db, p) || p == PathOf(db.layout, k) {
      if IsFile(db, p) {
        var o :| o in db.objects && PathOf(db.layout, o) == p;
        assert o in after.objects.Keys;
      }
      if IsFile(after, p) {
        var o :| o in after.objects && PathOf(db.layout, o) == p;
        assert o in after.objects.Keys;
      }
      assert k in after.objects.Keys;
    }
    forall p ensures IsDirectory(db.layout, puts + {k}, p) <==> IsDirectory(db.layout, puts, p) || p in Parents(PathOf(db.layout, k)) {
      MoreDirectories(db.layout, puts, k, p);
    }
  }

  lemma MoreDirectories(layout: Layout, puts: set<ObjectKey>, k: ObjectKey, p: BlobPath)
    ensures IsDirectory(layout, puts + {k}, p) <==> IsDirectory(layout, puts, p) || p in Parents(PathOf(layout, k))
  {
    assert k in puts + {k};
    if IsDirectory(layout, puts, p) {
      var o :| o in puts && p in Parents(PathOf(layout, o));
      assert o in puts + {k};
    }
  }

  lemma RefusedFiled(db: Db, puts: set<ObjectKey>, k: ObjectKey, headers: Headers, data: Bytes, now: Instant)
    requires Filed(db, puts) && PutFile(db, k, headers, data, now).result.Err?
    ensures PutFile(db, k, headers, data, now).db == db
  {
    var path := PathOf(db.layout, k);
    if path in db.dirs + Parents(path) {
      assert path !in Parents(path);
      var o :| o in puts && path in Parents(PathOf(db.layout, o));
      ParentsOfParent(path, PathOf(db.layout, o));
      assert db.dirs + Parents(path) == db.dirs by {
        forall p | p in Parents(path) ensures p in db.dirs { assert p in Parents(PathOf(db.layout, o)); }
      }
    }
  }

  lemma RemovedFiled(db: Db, ok: string -> bool, puts: set<ObjectKey>, k: ObjectKey)
    requires Sound(db, ok) && Filed(db, puts) && k in db.objects
    ensures Filed(RemoveRow(db, k), puts)
  {
    var after := RemoveRow(db, k);
    forall p ensures IsFile(after, p) <==> IsFile(db, p) && p != PathOf(db.layout, k) {
      if IsFile(after, p) {
        var o :| o in after.objects && PathOf(db.layout, o) == p;
        NoSharedBlob(db, ok, k, o);
      }
      if IsFile(db, p) && p != PathOf(db.layout, k) {
        var o :| o in db.objects && PathOf(db.layout, o) == p;
        assert o in after.objects;
      }
    }
  }

  lemma BucketGoneFiled(db: Db, puts: set<ObjectKey>, name: string)
    requires Filed(db, puts) && name in db.buckets && Empty(db, name)
    ensures Filed(DeleteBucket(db, name).value, set k | k in puts && k.bucket in (db.buckets - {name}))
  {
    var after, left := DeleteBucket(db, name).value, set k | k in puts && k.bucket in (db.buckets - {name});
    forall p ensures IsFile(after, p) <==> IsFile(db, p) && p.bucket != name {}
    forall p ensures IsDirectory(db.layout, left, p) <==> IsDirectory(db.layout, puts, p) && p.bucket != name {
      if IsDirectory(db.layout, puts, p) && p.bucket != name {
        var k :| k in puts && p in Parents(PathOf(db.layout, k));
        assert k in left;
      }
    }
  }

  /** Nothing but rows and buckets' settings changed. */
  lemma UntouchedFiled(db: Db, after: Db, puts: set<ObjectKey>)
    requires Filed(db, puts) && after.layout == db.layout && after.files == db.files && after.dirs == db.dirs
    requires after.objects.Keys == db.objects.Keys && db.buckets.Keys <= after.buckets.Keys
    ensures Filed(after, puts)
  {
    forall p ensures IsFile(after, p) <==> IsFile(db, p) {
      if IsFile(after, p) {
        var o :| o in after.objects && PathOf(db.layout, o) == p;
        assert o in db.objects.Keys;
      }
      if IsFile(db, p) {
        var o :| o in db.objects && PathOf(db.layout, o) == p;
        assert o in after.objects.Keys;
      }
    }
  }

  /** What putting, composing and copying come to: nothing, or one file to be written. */
  lemma Attempt(db: Db, op: Op, now: Instant) returns (k: ObjectKey, headers: Headers, data: Bytes)
    requires op.PutOp? || op.ComposeOp? || op.CopyOp?
    ensures || Apply(db, op, now) == Outcome(db, None)
            || (k.bucket in db.buckets && k.name == op.name && Apply(db, op, now) == OfPut(PutFile(db, k, headers, data, now)))
  {
    var contentType, meta := "", None;
    data := [];
    match op {
      case PutOp(_, _, c, d, m) => contentType, data, meta := c, d, m;
      case ComposeOp(srcBucket, _, _, sources, c) =>
        var all := Gather(db, srcBucket, sources, c);
        if 0 < |sources| <= 32 && all.Ok? { contentType, data := all.value.1, all.value.0; }
      case CopyOp(srcBucket, srcName, srcGeneration, _, _) =>
        var src := GetObject(db, srcBucket, srcName, srcGeneration);
        if src.Some? && Read(db, src.value).Some? {
          contentType, data, meta := db.objects[src.value].headers.contentType, Read(db, src.value).value, Some(db.objects[src.value].headers);
        }
    }
    k, headers := ObjectKey(op.bucket, op.name, NextGeneration(db, op.bucket, op.name)), PutHeaders(contentType, meta);
    PutIsPutFile(db, op.bucket, op.name, contentType, data, meta, now);
  }

  lemma SamePuts(db: Db, puts: set<ObjectKey>, after: Db)
    requires Filed(db, puts) && db.buckets.Keys <= after.buckets.Keys
    ensures (set k | k in puts && k.bucket in after.buckets) == puts
  {
  }

  lemma PutLikeFiled(db: Db, puts: set<ObjectKey>, op: Op, now: Instant)
    requires Filed(db, puts) && (op.PutOp? || op.ComposeOp? || op.CopyOp?)
    ensures var out := Apply(db, op, now); Filed(out.db, PutsAfter(puts, op, out))
  {
    var out := Apply(db, op, now);
    var k, headers, data := Attempt(db, op, now);
    SamePuts(db, puts, db);
    if out != Outcome(db, None) {
      var put := PutFile(db, k, headers, data, now);
      if put.result.Ok? {
        WrittenFiled(db, puts, k, headers, data, now);
        SamePuts(out.db, puts + {k}, out.db);
      } else {
        RefusedFiled(db, puts, k, headers, data, now);
      }
    }
  }

  lemma DeleteFiled(db: Db, ok: string -> bool, puts: set<ObjectKey>, op: Op, now: Instant)
    requires Sound(db, ok) && Filed(db, puts) && op.DeleteOp?
    ensures var out := Apply(db, op, now); Filed(out.db, PutsAfter(puts, op, out))
  {
    var out := Apply(db, op, now);
    GetObjectFinds(db, op.bucket, op.name, op.generation);
    SamePuts(db, puts, out.db);
    if out.key.Some? { RemovedFiled(db, ok, puts, out.key.value); }
  }

  lemma SettingsFiled(db: Db, puts: set<ObjectKey>, op: Op, now: Instant)
    requires Filed(db, puts) && (op.CreateBucketOp? || op.PatchBucketOp? || op.PatchObjectOp?)
    ensures var out := Apply(db, op, now); Filed(out.db, PutsAfter(puts, op, out))
  {
    var out := Apply(db, op, now);
    if op.PatchObjectOp? { GetObjectFinds(db, op.bucket, op.name, op.generation); }
    UntouchedFiled(db, out.db, puts);
    SamePuts(db, puts, out.db);
  }

  lemma StepFiled(db: Db, ok: string -> bool, puts: set<ObjectKey>, op: Op, now: Instant)
    requires Sound(db, ok) && Filed(db, puts)
    ensures var out := Apply(db, op, now); Filed(out.db, PutsAfter(puts, op, out))
  {
    match op
    case DeleteOp(_, _, _) => DeleteFiled(db, ok, puts, op, now);
    case DeleteBucketOp(name) =>
      if Empty(db, name) && name in db.buckets { BucketGoneFiled(db, puts, name); } else { SamePuts(db, puts, db); }
    case PutOp(_, _, _, _, _) => PutLikeFiled(db, puts, op, now);
    case ComposeOp(_, _, _, _, _) => PutLikeFiled(db, puts, op, now);
    case CopyOp(_, _, _, _, _) => PutLikeFiled(db, puts, op, now);
    case CreateBucketOp(_, _, _, _) => SettingsFiled(db, puts, op, now);
    case PatchBucketOp(_, _) => SettingsFiled(db, puts, op, now);
    case PatchObjectOp(_, _, _, _, _) => SettingsFiled(db, puts, op, now);
  }

  lemma {:induction false} RunFiled(db: Db, ok: string -> bool, puts: set<ObjectKey>, steps: seq<Step>)
    requires Sound(db, ok) && Filed(db, puts) && AllNames(steps, ok)
    ensures Filed(Run(db, steps), Puts(puts, db, steps)) && Run(db, steps).layout == db.layout
    decreases |steps|
  {
    if steps != [] {
      assert steps[0] in steps;
      StepFiled(db, ok, puts, steps[0].op, steps[0].now);
      StepSound(db, ok, steps[0]);
      EveryOperationMoves(db, ok, steps[0].op, steps[0].now);
      var out := Apply(db, steps[0].op, steps[0].now);
      RunFiled(out.db, ok, PutsAfter(puts, steps[0].op, out), steps[1..]);
    }
  }

  // ---------- what a put then meets ----------

  /** The put gets past the checks that come before the file system. */
  predicate Admitted(db: Db, bucket: string, name: string, now: Instant) {
    ValidBucketName(bucket) && bucket in db.buckets && !Retained(db, bucket, name, 0, now) && db.layout.allowed(name)
  }

  /** The path of `long` goes on below that of `short`. */
  predicate Under(layout: Layout, short: string, long: string) {
    layout.segments(short) != [] && layout.segments(short) < layout.segments(long)
  }

  /** A live generation has its file where `k` needs a directory. */
  ghost predicate FileInTheWay(db: Db, k: ObjectKey) {
    exists o :: o in db.objects && o.bucket == k.bucket && o.generation == k.generation && Under(db.layout, o.name, k.name)
  }

  /** Something put earlier, deleted or not, has left a directory where `k` needs its file. */
  ghost predicate DirectoryInTheWay(layout: Layout, puts: set<ObjectKey>, k: ObjectKey) {
    exists o :: o in puts && o.bucket == k.bucket && o.generation == k.generation && Under(layout, k.name, o.name)
  }

  lemma ParentIsUnder(layout: Layout, a: ObjectKey, b: ObjectKey)
    ensures PathOf(layout, a) in Parents(PathOf(layout, b)) <==>
              a.bucket == b.bucket && a.generation == b.generation && Under(layout, a.name, b.name)
  {
    var s, l := layout.segments(a.name), layout.segments(b.name);
    if a.bucket == b.bucket && a.generation == b.generation && Under(layout, a.name, b.name) {
      assert s == l[..|s|];
      assert PathOf(layout, a) == PathOf(layout, b).(segments := l[..|s|]);
    }
  }

  lemma FileInTheWayIs(db: Db, puts: set<ObjectKey>, k: ObjectKey)
    requires Filed(db, puts)
    ensures FileInTheWay(db, k) <==> exists p :: p in Parents(PathOf(db.layout, k)) && p in db.files
  {
    if FileInTheWay(db, k) {
      var o :| o in db.objects && o.bucket == k.bucket && o.generation == k.generation && Under(db.layout, o.name, k.name);
      ParentIsUnder(db.layout, o, k);
      assert IsFile(db, PathOf(db.layout, o));
    }
    if p :| p in Parents(PathOf(db.layout, k)) && p in db.files {
      var o :| o in db.objects && PathOf(db.layout, o) == p;
      ParentIsUnder(db.layout, o, k);
    }
  }

  lemma DirectoryInTheWayIs(db: Db, puts: set<ObjectKey>, k: ObjectKey)
    requires Filed(db, puts)
    ensures DirectoryInTheWay(db.layout, puts, k) <==> PathOf(db.layout, k) in db.dirs
  {
    forall o ensures PathOf(db.layout, k) in Parents(PathOf(db.layout, o)) <==>
                       o.bucket == k.bucket && o.generation == k.generation && Under(db.layout, k.name, o.name)
    {
      ParentIsUnder(db.layout, k, o);
    }
  }

  lemma PutFileMeets(db: Db, puts: set<ObjectKey>, k: ObjectKey, headers: Headers, data: Bytes, now: Instant)
    requires Filed(db, puts)
    ensures PutFile(db, k, headers, data, now).result ==
            if FileInTheWay(db, k) then Err(CreateDirFailed)
            else if DirectoryInTheWay(db.layout, puts, k) then Err(WriteFailed)
            else Ok(k)
  {
    FileInTheWayIs(db, puts, k);
    DirectoryInTheWayIs(db, puts, k);
    assert PathOf(db.layout, k) !in Parents(PathOf(db.layout, k));
  }

  /** After any run on names with paths of their own, a put that passes its checks fails exactly when a live
      generation of the same number has a path above its own, or one of that number put since the bucket was
      created had a path below it. */
  lemma PutFailsExactly(layout: Layout, ok: string -> bool, steps: seq<Step>, bucket: string, name: string, contentType: string, data: Bytes, meta: Option<Headers>, now: Instant)
    requires Faithful(layout, ok) && AllNames(steps, ok)
    requires Admitted(Run(EmptyDb(layout), steps), bucket, name, now)
    ensures var db, puts := Run(EmptyDb(layout), steps), Puts({}, EmptyDb(layout), steps);
            var k := ObjectKey(bucket, name, NextGeneration(db, bucket, name));
            Put(db, bucket, name, contentType, data, meta, now).result ==
            if FileInTheWay(db, k) then Err(CreateDirFailed)
            else if DirectoryInTheWay(layout, puts, k) then Err(WriteFailed)
            else Ok(k)
  {
    var empty := EmptyDb(layout);
    assert Sound(empty, ok) && Filed(empty, {});
    RunFiled(empty, ok, {}, steps);
    var db := Run(empty, steps);
    PutFileMeets(db, Puts({}, empty, steps), ObjectKey(bucket, name, NextGeneration(db, bucket, name)), PutHeaders(contentType, meta), data, now);
  }

  // ---------- canonical names ----------

  lemma MoreSegments(short: string, long: string)
    requires Split(short, "/") < Split(long, "/")
    ensures short + "/" <= long
  {
    var s := Split(short, "/");
    var rest := Split(long, "/")[|s|..];
    assert Split(long, "/") == s + rest;
    JoinConcat(s, rest, "/");
    JoinSplit(short, "/");
    JoinSplit(long, "/");
    assert long == short + "/" + Join(rest, "/");
  }

  lemma LongerText(short: string, tail: string)
    ensures Split(short, "/") < Split(short + "/" + tail, "/")
  {
    SplitConcat(short, '/', tail);
  }

  lemma ContinuesExactly(short: string, long: string)
    ensures Split(short, "/") < Split(long, "/") <==> short + "/" <= long
  {
    if Split(short, "/") < Split(long, "/") { MoreSegments(short, long); }
    if short + "/" <= long {
      var tail := long[|short| + 1..];
      assert long == short + "/" + tail;
      LongerText(short, tail);
    }
  }

  /** Among these names one lies under another exactly when it continues it after a slash. */
  ghost predicate ByText(layout: Layout, ok: string -> bool) {
    forall a, b :: ok(a) && ok(b) ==> (Under(layout, a, b) <==> a + "/" <= b)
  }

  lemma UnderContinues(layout: Layout, a: string, b: string)
    requires layout.segments(a) == Split(a, "/") && layout.segments(b) == Split(b, "/")
    ensures Under(layout, a, b) <==> a + "/" <= b
  {
    ContinuesExactly(a, b);
  }

  lemma CanonicalLayout(name: string)
    ensures Canonical(name) ==> LAYOUT.segments(name) == Split(name, "/")
  {
    if Canonical(name) { CanonicalSegments(name); }
  }

  lemma CanonicalUnder(a: string, b: string)
    requires Canonical(a) && Canonical(b)
    ensures Under(LAYOUT, a, b) <==> a + "/" <= b
  {
    CanonicalLayout(a);
    CanonicalLayout(b);
    UnderContinues(LAYOUT, a, b);
  }


  lemma CanonicalByText()
    ensures ByText(LAYOUT, Canonical)
  {
    forall a, b | Canonical(a) && Canonical(b) ensures Under(LAYOUT, a, b) <==> a + "/" <= b { CanonicalUnder(a, b); }
  }

  lemma {:induction false} PutsNamed(db: Db, ok: string -> bool, puts: set<ObjectKey>, steps: seq<Step>)
    requires Sound(db, ok) && AllNames(steps, ok) && forall k :: k in puts ==> ok(k.name)
    ensures forall k :: k in Puts(puts, db, steps) ==> ok(k.name)
    ensures Sound(Run(db, steps), ok)
    decreases |steps|
  {
    if steps != [] {
      assert steps[0] in steps;
      StepSound(db, ok, steps[0]);
      EveryOperationMoves(db, ok, steps[0].op, steps[0].now);
      var out := Apply(db, steps[0].op, steps[0].now);
      PutsNamed(out.db, ok, PutsAfter(puts, steps[0].op, out), steps[1..]);
    }
  }

  /** Some other name of the same bucket and generation stands in the way of a canonical one: a live one that it
      continues after a slash, or one put earlier that continues it. */
  ghost predicate NameInTheWay(db: Db, puts: set<ObjectKey>, k: ObjectKey) {
    || (exists o :: o in db.objects && o.bucket == k.bucket && o.generation == k.generation && o.name + "/" <= k.name)
    || (exists o :: o in puts && o.bucket == k.bucket && o.generation == k.generation && k.name + "/" <= o.name)
  }

  lemma NameInTheWayIs(db: Db, ok: string -> bool, puts: set<ObjectKey>, k: ObjectKey)
    requires ByText(db.layout, ok) && ok(k.name) && AllOk(db, ok) && forall o :: o in puts ==> ok(o.name)
    ensures NameInTheWay(db, puts, k) <==> FileInTheWay(db, k) || DirectoryInTheWay(db.layout, puts, k)
  {
  }

  lemma PutFailsByName(layout: Layout, ok: string -> bool, steps: seq<Step>, bucket: string, name: string, contentType: string, data: Bytes, meta: Option<Headers>, now: Instant)
    requires Faithful(layout, ok) && ByText(layout, ok) && AllNames(steps, ok) && ok(name)
    requires Admitted(Run(EmptyDb(layout), steps), bucket, name, now)
    ensures var db, puts := Run(EmptyDb(layout), steps), Puts({}, EmptyDb(layout), steps);
            Put(db, bucket, name, contentType, data, meta, now).result.Err? <==>
              NameInTheWay(db, puts, ObjectKey(bucket, name, NextGeneration(db, bucket, name)))
  {
    var empty := EmptyDb(layout);
    assert Sound(empty, ok) && Filed(empty, {});
    RunFiled(empty, ok, {}, steps);
    PutsNamed(empty, ok, {}, steps);
    PutFailsExactly(layout, ok, steps, bucket, name, contentType, data, meta, now);
    var db := Run(empty, steps);
    NameInTheWayIs(db, ok, Puts({}, empty, steps), ObjectKey(bucket, name, NextGeneration(db, bucket, name)));
  }

  /** With the store's own paths a put of a canonical name that passes its checks fails exactly when such a name
      is in the way. */
  lemma CanonicalPutFails(steps: seq<Step>, bucket: string, name: string, contentType: string, data: Bytes, meta: Option<Headers>, now: Instant)
    requires AllNames(steps, Canonical) && Canonical(name)
    requires Admitted(Run(EmptyDb(LAYOUT), steps), bucket, name, now)
    ensures var db, puts := Run(EmptyDb(LAYOUT), steps), Puts({}, EmptyDb(LAYOUT), steps);
            Put(db, bucket, name, contentType, data, meta, now).result.Err? <==>
              NameInTheWay(db, puts, ObjectKey(bucket, name, NextGeneration(db, bucket, name)))
  {
    CanonicalIsFaithful();
    CanonicalByText();
    PutFailsByName(LAYOUT, Canonical, steps, bucket, name, contentType, data, meta, now);
  }
}
