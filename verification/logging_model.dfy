/** Cloud Logging entries: writing, deleting and listing them page by page. Times are kept and compared as
    text, as the table does. */
module LoggingModel {
  import opened Basics
  import opened Text

  datatype Entry = Entry(id: string, project: string, logName: string, severity: string, timestamp: string, payload: string, resource: string)

  /** `insert_id` is the primary key. */
  type Table = map<string, Entry>

  predicate TableOk(t: Table) {
    forall id :: id in t ==> t[id].id == id && t[id].timestamp != ""
  }

  datatype Error = FieldsRequired | ProjectRequired

  // ---------- writing and deleting ----------

  predicate Complete(e: Entry) {
    e.id != "" && e.project != "" && e.logName != ""
  }

  function OrElse(s: string, d: string): string {
    if s == "" then d else s
  }

  function WithDefaults(e: Entry, now: string): Entry {
    e.(severity := OrElse(e.severity, "DEFAULT"), timestamp := OrElse(e.timestamp, now),
       payload := OrElse(e.payload, "{}"), resource := OrElse(e.resource, "{}"))
  }

  /** INSERT OR IGNORE. */
  function InsertRow(t: Table, e: Entry): Table {
    if e.id in t then t else t[e.id := e]
  }

  /** `clock` gives the time text read for each entry that has none. */
  function InsertAll(t: Table, entries: seq<Entry>, clock: nat -> string): Table {
    if entries == [] then t
    else
      var n := |entries| - 1;
      InsertRow(InsertAll(t, entries[..n], clock), WithDefaults(entries[n], clock(n)))
  }

  /** One transaction: nothing is kept when any entry is incomplete. */
  function Write(t: Table, entries: seq<Entry>, clock: nat -> string): Result<Table, Error> {
    if forall e :: e in entries ==> Complete(e) then Ok(InsertAll(t, entries, clock)) else Err(FieldsRequired)
  }

  predicate Doomed(e: Entry, project: string, logName: string) {
    e.project == project && e.logName == logName
  }

  function Delete(t: Table, project: string, logName: string): Table {
    map id | id in t && !Doomed(t[id], project, logName) :: t[id]
  }

  lemma {:induction false} InsertAllOk(t: Table, entries: seq<Entry>, clock: nat -> string)
    requires TableOk(t) && forall i :: clock(i) != ""
    ensures TableOk(InsertAll(t, entries, clock))
  {
    if entries != [] { InsertAllOk(t, entries[..|entries| - 1], clock); }
  }

  /** A row, once written, is never overwritten: writing only adds rows. */
  lemma {:induction false} WriteOnlyAdds(t: Table, entries: seq<Entry>, clock: nat -> string, id: string)
    ensures id in t ==> id in InsertAll(t, entries, clock) && InsertAll(t, entries, clock)[id] == t[id]
  {
    if entries != [] { WriteOnlyAdds(t, entries[..|entries| - 1], clock, id); }
  }

  // ---------- order ----------

  /** (timestamp, insert_id) < (timestamp, insert_id). */
  predicate KeyLess(ts: string, id: string, ts': string, id': string) {
    Less(ts, ts') || (ts == ts' && Less(id, id'))
  }

  predicate Before(descending: bool, a: Entry, b: Entry) {
    if descending then KeyLess(b.timestamp, b.id, a.timestamp, a.id) else KeyLess(a.timestamp, a.id, b.timestamp, b.id)
  }

  lemma BeforeTransitive(descending: bool, a: Entry, b: Entry, c: Entry)
    requires Before(descending, a, b) && Before(descending, b, c)
    ensures Before(descending, a, c)
  {
    if Less(a.timestamp, b.timestamp) && Less(b.timestamp, c.timestamp) { LessTransitive(a.timestamp, b.timestamp, c.timestamp); }
    if Less(b.timestamp, a.timestamp) && Less(c.timestamp, b.timestamp) { LessTransitive(c.timestamp, b.timestamp, a.timestamp); }
    if Less(a.id, b.id) && Less(b.id, c.id) { LessTransitive(a.id, b.id, c.id); }
    if Less(b.id, a.id) && Less(c.id, b.id) { LessTransitive(c.id, b.id, a.id); }
  }

  lemma BeforeTotal(descending: bool, a: Entry, b: Entry)
    ensures a.id != b.id ==> Before(descending, a, b) || Before(descending, b, a)
    ensures !(Before(descending, a, b) && Before(descending, b, a))
  {
    LessTotal(a.timestamp, b.timestamp);
    LessTotal(a.id, b.id);
    LessIrreflexive(a.timestamp);
    LessIrreflexive(a.id);
    NotBoth(a.timestamp, b.timestamp);
    NotBoth(a.id, b.id);
  }

  lemma NotBoth(a: string, b: string)
    ensures !(Less(a, b) && Less(b, a))
  {
    if Less(a, b) { LessAsymmetric(a, b); }
  }

  ghost predicate Ordered(descending: bool, s: seq<Entry>) {
    forall i, j :: 0 <= i < j < |s| ==> Before(descending, s[i], s[j])
  }

  ghost predicate Keyed(rows: set<Entry>) {
    forall a, b :: a in rows && b in rows && a.id == b.id ==> a == b
  }

  predicate IsFirst(descending: bool, m: Entry, rows: set<Entry>) {
    m in rows && forall x :: x in rows ==> x == m || Before(descending, m, x)
  }

  lemma {:induction false} FirstExists(descending: bool, rows: set<Entry>)
    requires rows != {} && Keyed(rows)
    ensures exists m :: IsFirst(descending, m, rows)
    decreases rows
  {
    var x :| x in rows;
    var rest := rows - {x};
    if rest == {} {
      assert rows == {x};
      assert IsFirst(descending, x, rows);
    } else {
      FirstExists(descending, rest);
      var m :| IsFirst(descending, m, rest);
      BeforeTotal(descending, m, x);
      if Before(descending, m, x) {
        assert IsFirst(descending, m, rows);
      } else {
        forall y | y in rows ensures y == x || Before(descending, x, y) {
          if y != x && y != m { BeforeTransitive(descending, x, m, y); }
        }
        assert IsFirst(descending, x, rows);
      }
    }
  }

  /** The rows in the order of the listing: ORDER BY timestamp, insert_id. */
  ghost function InOrder(descending: bool, rows: set<Entry>): (s: seq<Entry>)
    requires Keyed(rows)
    ensures forall x :: x in s <==> x in rows
    ensures |s| == |rows|
    ensures Ordered(descending, s)
    decreases rows
  {
    if rows == {} then []
    else
      FirstExists(descending, rows);
      var m :| IsFirst(descending, m, rows);
      assert rows == {m} + (rows - {m});
      [m] + InOrder(descending, rows - {m})
  }

  lemma HeadIn<T>(s: seq<T>)
    ensures s != [] ==> s[0] in s
  {
  }

  /** There is one way to put rows in order. */
  lemma {:induction false} OrderUnique(descending: bool, a: seq<Entry>, b: seq<Entry>)
    requires Ordered(descending, a) && Ordered(descending, b) && forall x :: x in a <==> x in b
    ensures a == b
    decreases |a|
  {
    HeadIn(b);
    if a == [] {
    } else {
      assert a[0] in b && b != [] && b[0] in a;
      BeforeTotal(descending, a[0], b[0]);
      assert a[0] == b[0];
      BeforeTotal(descending, a[0], a[0]);
      TailElements(descending, a);
      TailElements(descending, b);
      OrderUnique(descending, a[1..], b[1..]);
      assert a == [a[0]] + a[1..] && b == [b[0]] + b[1..];
    }
  }

  lemma TailElements(descending: bool, a: seq<Entry>)
    requires Ordered(descending, a) && a != []
    ensures Ordered(descending, a[1..]) && forall x :: x in a[1..] <==> x in a && x != a[0]
  {
    assert a == [a[0]] + a[1..];
    forall x | x in a[1..] ensures x != a[0] {
      var j :| 0 <= j < |a[1..]| && a[1..][j] == x;
      BeforeTotal(descending, a[0], a[j + 1]);
    }
  }

  // ---------- listing ----------

  datatype Cursor = Cursor(timestamp: string, id: string)

  const START: Cursor := Cursor("", "")

  /** The conditions of the query. The comparisons that need SQL functions (`LIKE` on the payload, `UPPER`
      on the severity, `json_extract` on the resource) are one predicate. */
  datatype Query = Query(project: string, logName: string, from: string, before: string, other: Entry -> bool, pageSize: int, descending: bool)

  predicate Matches(q: Query, e: Entry) {
    && e.project == q.project && (q.logName == "" || e.logName == q.logName)
    && (q.from == "" || !Less(e.timestamp, q.from)) && (q.before == "" || Less(e.timestamp, q.before))
    && q.other(e)
  }

  /** The seek condition; a cursor without a timestamp asks for the beginning. */
  predicate Past(descending: bool, c: Cursor, e: Entry) {
    c.timestamp == "" || if descending then KeyLess(e.timestamp, e.id, c.timestamp, c.id) else KeyLess(c.timestamp, c.id, e.timestamp, e.id)
  }

  function Size(q: Query): (n: nat)
    ensures 1 <= n <= 1000
  {
    if q.pageSize <= 0 then 50 else if q.pageSize > 1000 then 1000 else q.pageSize
  }

  function Rows(t: Table, q: Query, c: Cursor): (rows: set<Entry>)
  {
    set id | id in t && Matches(q, t[id]) && Past(q.descending, c, t[id]) :: t[id]
  }

  lemma RowsKeyed(t: Table, q: Query, c: Cursor)
    requires TableOk(t)
    ensures Keyed(Rows(t, q, c))
    ensures forall e :: e in Rows(t, q, c) <==> e.id in t && t[e.id] == e && Matches(q, e) && Past(q.descending, c, e)
  {
    forall e | e in Rows(t, q, c) ensures e.id in t && t[e.id] == e && Matches(q, e) && Past(q.descending, c, e) {
      var id :| id in t && t[id] == e && Matches(q, t[id]) && Past(q.descending, c, t[id]);
      assert id == e.id;
    }
  }

  ghost function Listing(t: Table, q: Query, c: Cursor): seq<Entry>
    requires TableOk(t)
  {
    RowsKeyed(t, q, c);
    InOrder(q.descending, Rows(t, q, c))
  }

  function Take<T>(s: seq<T>, n: nat): seq<T> {
    if n <= |s| then s[..n] else s
  }

  function Skip<T>(s: seq<T>, n: int): seq<T> {
    if n <= 0 then s else if n <= |s| then s[n..] else []
  }

  /** appendLogListPage: LIMIT, and OFFSET only when there is no cursor. */
  ghost function Page(t: Table, q: Query, c: Cursor, offset: int): (page: seq<Entry>)
    requires TableOk(t)
  {
    Take(if c.timestamp == "" then Skip(Listing(t, q, c), offset) else Listing(t, q, c), Size(q))
  }

  ghost function ListLogEntries(t: Table, q: Query, c: Cursor, offset: int): Result<seq<Entry>, Error>
    requires TableOk(t)
  {
    if q.project == "" then Err(ProjectRequired) else Ok(Page(t, q, c, offset))
  }
}
