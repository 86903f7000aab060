/** What a log query returns, told by the fields of the entries: what was written comes back to those who ask for it,
    and to no one else. */
module LoggingQueries {
  import opened Basics
  import opened Text
  import opened LoggingModel
  import opened LoggingPaging

  // ---------- reading ----------

  /** The entry is of the project asked for, of the log asked for if one was, and of a time from `from` up to `before`
      where they are given. */
  predicate AskedFor(q: Query, e: Entry) {
    && e.project == q.project
    && (q.logName != "" ==> e.logName == q.logName)
    && (q.from != "" ==> q.from == e.timestamp || Less(q.from, e.timestamp))
    && (q.before != "" ==> Less(e.timestamp, q.before))
  }

  /** A listing needs a project. Everything it returns is a stored entry that was asked for. */
  lemma ListedWasAskedFor(t: Table, q: Query, c: Cursor, offset: int, e: Entry)
    requires TableOk(t)
    ensures ListLogEntries(t, q, c, offset).Ok? <==> q.project != ""
    ensures ListLogEntries(t, q, c, offset).Ok? && e in ListLogEntries(t, q, c, offset).value ==>
              e.id in t && t[e.id] == e && AskedFor(q, e) && q.other(e)
  {
    if q.project != "" && e in Page(t, q, c, offset) {
      PageIsListed(t, q, c, offset, e);
      ListingHas(t, q, c, e);
      LessTotal(e.timestamp, q.from);
    }
  }

  lemma PageIsListed(t: Table, q: Query, c: Cursor, offset: int, e: Entry)
    requires TableOk(t) && e in Page(t, q, c, offset)
    ensures e in Listing(t, q, c)
  {
    var all := Listing(t, q, c);
    assert forall n :: n in Skip(all, offset) ==> n in all;
  }

  /** From the beginning the listing is exactly the stored entries asked for. */
  lemma ListingIsAskedFor(t: Table, q: Query, e: Entry)
    requires TableOk(t)
    ensures e in Listing(t, q, START) <==> e.id in t && t[e.id] == e && AskedFor(q, e) && q.other(e)
  {
    ListingHas(t, q, START, e);
    LessTotal(e.timestamp, q.from);
    LessIrreflexive(e.timestamp);
    NotBoth(e.timestamp, q.from);
  }

  /** A page holds as many entries as are left, up to the size asked for: 50 if none was, 1000 at most. */
  lemma PageFills(t: Table, q: Query, c: Cursor)
    requires TableOk(t)
    ensures |Page(t, q, c, 0)| == Min(|Listing(t, q, c)|, if q.pageSize <= 0 then 50 else Min(q.pageSize, 1000))
  {
  }

  // ---------- writing ----------

  /** The entry as it is stored: what is missing has its default. */
  predicate StoredFrom(e: Entry, given: Entry, now: string) {
    && e.id == given.id && e.project == given.project && e.logName == given.logName
    && e.severity == (if given.severity != "" then given.severity else "DEFAULT")
    && e.timestamp == (if given.timestamp != "" then given.timestamp else now)
    && e.payload == (if given.payload != "" then given.payload else "{}")
    && e.resource == (if given.resource != "" then given.resource else "{}")
  }

  /** No earlier entry of the batch has the id. */
  ghost predicate FirstWithId(entries: seq<Entry>, i: nat)
    requires i < |entries|
  {
    forall j :: 0 <= j < i ==> entries[j].id != entries[i].id
  }

  lemma {:induction false} InsertedStays(t: Table, entries: seq<Entry>, clock: nat -> string, n: nat, id: string)
    requires n <= |entries| && id in InsertAll(t, entries[..n], clock)
    ensures id in InsertAll(t, entries, clock) && InsertAll(t, entries, clock)[id] == InsertAll(t, entries[..n], clock)[id]
    decreases |entries|
  {
    if n == |entries| {
      assert entries[..n] == entries;
    } else {
      var last := |entries| - 1;
      assert entries[..last][..n] == entries[..n];
      InsertedStays(t, entries[..last], clock, n, id);
      RowStays(InsertAll(t, entries[..last], clock), WithDefaults(entries[last], clock(last)), id);
    }
  }

  lemma RowStays(t: Table, e: Entry, id: string)
    requires id in t
    ensures id in InsertRow(t, e) && InsertRow(t, e)[id] == t[id]
  {
  }

  lemma {:induction false} NotYetInserted(t: Table, entries: seq<Entry>, clock: nat -> string, id: string)
    requires id !in t && forall j :: 0 <= j < |entries| ==> entries[j].id != id
    ensures id !in InsertAll(t, entries, clock)
    decreases |entries|
  {
    if entries != [] { NotYetInserted(t, entries[..|entries| - 1], clock, id); }
  }

  /** An accepted write stores each entry whose id is new. */
  lemma WrittenIsStored(t: Table, entries: seq<Entry>, clock: nat -> string, i: nat)
    requires i < |entries| && entries[i].id !in t && FirstWithId(entries, i)
    ensures var after := InsertAll(t, entries, clock);
            entries[i].id in after && StoredFrom(after[entries[i].id], entries[i], clock(i))
  {
    NotYetInserted(t, entries[..i], clock, entries[i].id);
    assert entries[..i + 1][..i] == entries[..i] && entries[..i + 1][i] == entries[i];
    InsertedStays(t, entries, clock, i + 1, entries[i].id);
  }

  /** A write is accepted exactly when every entry has an id, a project and a log. An entry it brings under a new id is
      then in the listing of its project and of its log, and in no listing of another project or another log. */
  lemma WrittenIsListed(t: Table, entries: seq<Entry>, clock: nat -> string, i: nat, q: Query)
    requires TableOk(t) && forall k :: clock(k) != ""
    ensures var done := Write(t, entries, clock);
            && (done.Ok? <==> forall e :: e in entries ==> e.id != "" && e.project != "" && e.logName != "")
            && (done.Ok? && i < |entries| && entries[i].id !in t && FirstWithId(entries, i) ==>
                  && TableOk(done.value) && entries[i].id in done.value
                  && var e := done.value[entries[i].id];
                  && StoredFrom(e, entries[i], clock(i))
                  && (q.project == e.project && q.logName in {"", e.logName} && q.from == "" && q.before == "" && q.other(e) ==> e in Listing(done.value, q, START))
                  && (q.project != e.project || q.logName !in {"", e.logName} ==> e !in Listing(done.value, q, START)))
  {
    var done := Write(t, entries, clock);
    if done.Ok? && i < |entries| && entries[i].id !in t && FirstWithId(entries, i) {
      InsertAllOk(t, entries, clock);
      WrittenIsStored(t, entries, clock, i);
      ListingIsAskedFor(done.value, q, done.value[entries[i].id]);
    }
  }

  // ---------- deleting ----------

  /** After a log is deleted its listing is empty; every other listing of one log is as before. */
  lemma DeletedIsUnlisted(t: Table, project: string, logName: string, q: Query, e: Entry)
    requires TableOk(t) && logName != "" && q.logName != ""
    ensures TableOk(Delete(t, project, logName))
    ensures e in Listing(Delete(t, project, logName), q, START) <==>
              e in Listing(t, q, START) && !(q.project == project && q.logName == logName)
  {
    ListingIsAskedFor(t, q, e);
    ListingIsAskedFor(Delete(t, project, logName), q, e);
  }
}
