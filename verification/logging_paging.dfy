/** Reading a log page by page with seek cursors, while others write to it. */
module LoggingPaging {
  import opened Basics
  import opened LoggingModel

  /** The cursor for the page after `page`. */
  function CursorAfter(c: Cursor, page: seq<Entry>): Cursor {
    if page == [] then c else Cursor(page[|page| - 1].timestamp, page[|page| - 1].id)
  }

  ghost predicate TablesOk(tables: seq<Table>) {
    forall t :: t in tables ==> TableOk(t)
  }

  /** What a client reads that follows cursors, one page from each of `tables`, until a page is short. */
  ghost function Walk(tables: seq<Table>, q: Query, c: Cursor): seq<Entry>
    requires TablesOk(tables)
    decreases |tables|
  {
    if tables == [] then []
    else
      assert tables[0] in tables;
      var page := Page(tables[0], q, c, 0);
      page + (if |page| < Size(q) then [] else Walk(tables[1..], q, CursorAfter(c, page)))
  }

  /** The client has seen a short page. */
  ghost predicate Finished(tables: seq<Table>, q: Query, c: Cursor)
    requires TablesOk(tables)
    decreases |tables|
  {
    && tables != []
    && (assert tables[0] in tables;
        var page := Page(tables[0], q, c, 0);
        |page| < Size(q) || Finished(tables[1..], q, CursorAfter(c, page)))
  }

  // ---------- one page ----------

  /** A page is the first rows, in order, that match and lie past the cursor: what is left out lies past
      everything in it, and nothing is left out of a short page. */
  lemma PageMeans(t: Table, q: Query, c: Cursor)
    requires TableOk(t)
    ensures var page := Page(t, q, c, 0);
            && Ordered(q.descending, page) && |page| <= Size(q)
            && (forall e :: e in page ==> e.id in t && t[e.id] == e && Matches(q, e) && Past(q.descending, c, e) && e.timestamp != "")
  {
    RowsKeyed(t, q, c);
    var all := Listing(t, q, c);
    var page := Page(t, q, c, 0);
    assert forall i :: 0 <= i < |page| ==> page[i] == all[i];
    assert forall e :: e in page ==> e in all;
  }

  lemma PageCovers(t: Table, q: Query, c: Cursor, e: Entry)
    requires TableOk(t) && e.id in t && t[e.id] == e && Matches(q, e) && Past(q.descending, c, e)
    ensures var page := Page(t, q, c, 0);
            e in page || (|page| == Size(q) && Before(q.descending, page[|page| - 1], e))
  {
    RowsKeyed(t, q, c);
    var all := Listing(t, q, c);
    var page := Page(t, q, c, 0);
    assert e in all;
    var i :| 0 <= i < |all| && all[i] == e;
    if i < |page| {
      assert page[i] == e;
    } else {
      assert page[|page| - 1] == all[|page| - 1];
    }
  }

  lemma PastIsBefore(descending: bool, last: Entry, e: Entry)
    requires last.timestamp != ""
    ensures Past(descending, Cursor(last.timestamp, last.id), e) <==> Before(descending, last, e)
  {
  }

  lemma PastFurther(descending: bool, c: Cursor, last: Entry, e: Entry)
    requires Past(descending, c, last) && Before(descending, last, e)
    ensures Past(descending, c, e)
  {
    if c.timestamp != "" {
      var at := last.(timestamp := c.timestamp, id := c.id);
      BeforeTransitive(descending, at, last, e);
    }
  }

  // ---------- the whole walk ----------

  /** The walk is strictly in order, so it never returns an entry twice, and it returns only entries that
      match and were there when their page was read. */
  lemma {:induction false} WalkInOrder(tables: seq<Table>, q: Query, c: Cursor)
    requires TablesOk(tables)
    ensures var walk := Walk(tables, q, c);
            && Ordered(q.descending, walk)
            && (forall e :: e in walk ==> Past(q.descending, c, e) && Matches(q, e) && exists t :: t in tables && e.id in t && t[e.id] == e)
    decreases |tables|
  {
    if tables != [] {
      assert tables[0] in tables;
      PageMeans(tables[0], q, c);
      var page := Page(tables[0], q, c, 0);
      if |page| >= Size(q) {
        var last := page[|page| - 1];
        assert last in page;
        WalkInOrder(tables[1..], q, CursorAfter(c, page));
        var rest := Walk(tables[1..], q, CursorAfter(c, page));
        PageThenRest(q.descending, c, page, rest);
      }
    }
  }

  lemma PageThenRest(descending: bool, c: Cursor, page: seq<Entry>, rest: seq<Entry>)
    requires page != [] && Ordered(descending, page) && Ordered(descending, rest)
    requires forall e :: e in page ==> Past(descending, c, e) && e.timestamp != ""
    requires forall e :: e in rest ==> Past(descending, CursorAfter(c, page), e)
    ensures Ordered(descending, page + rest) && forall e :: e in rest ==> Past(descending, c, e)
  {
    var last := page[|page| - 1];
    assert last in page;
    forall e | e in rest ensures Past(descending, c, e) && Before(descending, last, e) {
      PastIsBefore(descending, last, e);
      PastFurther(descending, c, last, e);
    }
    forall i, j | 0 <= i < |page| && 0 <= j < |rest| ensures Before(descending, page[i], rest[j]) {
      assert rest[j] in rest;
      if i < |page| - 1 { BeforeTransitive(descending, page[i], last, rest[j]); }
    }
  }

  lemma {:induction false} WalkCovers(tables: seq<Table>, q: Query, c: Cursor, e: Entry)
    requires TablesOk(tables) && Finished(tables, q, c) && Matches(q, e) && Past(q.descending, c, e)
    requires forall t :: t in tables ==> e.id in t && t[e.id] == e
    ensures e in Walk(tables, q, c)
    decreases |tables|
  {
    assert tables[0] in tables;
    PageMeans(tables[0], q, c);
    PageCovers(tables[0], q, c, e);
    var page := Page(tables[0], q, c, 0);
    if e !in page {
      var last := page[|page| - 1];
      assert last in page;
      PastIsBefore(q.descending, last, e);
      WalkCovers(tables[1..], q, CursorAfter(c, page), e);
    }
  }

  lemma {:induction false} OrderedCount(descending: bool, s: seq<Entry>, e: Entry)
    requires Ordered(descending, s)
    ensures multiset(s)[e] == if e in s then 1 else 0
    decreases |s|
  {
    if s != [] {
      TailElements(descending, s);
      OrderedCount(descending, s[1..], e);
      assert s == [s[0]] + s[1..];
    }
  }

  /** Whatever is written and deleted between the pages, an entry that matches and is there throughout is
      read exactly once. */
  lemma SeekVisitsOnce(tables: seq<Table>, q: Query, e: Entry)
    requires TablesOk(tables) && Finished(tables, q, START) && Matches(q, e)
    requires forall t :: t in tables ==> e.id in t && t[e.id] == e
    ensures multiset(Walk(tables, q, START))[e] == 1
  {
    WalkInOrder(tables, q, START);
    WalkCovers(tables, q, START, e);
    OrderedCount(q.descending, Walk(tables, q, START), e);
  }

  // ---------- nothing changes ----------

  lemma {:induction false} OrderedRest(descending: bool, all: seq<Entry>, j: nat, x: Entry)
    requires Ordered(descending, all) && 1 <= j <= |all|
    ensures x in all[j..] <==> x in all && Before(descending, all[j - 1], x)
  {
    if x in all {
      var i :| 0 <= i < |all| && all[i] == x;
      if i < j - 1 { BeforeTotal(descending, all[i], all[j - 1]); }
      BeforeTotal(descending, all[j - 1], all[j - 1]);
      if i >= j { assert all[j..][i - j] == x; }
    }
    if x in all[j..] {
      var i :| 0 <= i < |all[j..]| && all[j..][i] == x;
      assert all[j + i] == x;
    }
  }

  lemma ListingHas(t: Table, q: Query, c: Cursor, e: Entry)
    requires TableOk(t)
    ensures e in Listing(t, q, c) <==> e.id in t && t[e.id] == e && Matches(q, e) && Past(q.descending, c, e)
  {
    RowsKeyed(t, q, c);
  }

  lemma ListingPastAt(t: Table, q: Query, c: Cursor, last: Entry, e: Entry)
    requires TableOk(t) && last in Listing(t, q, c)
    ensures e in Listing(t, q, Cursor(last.timestamp, last.id)) <==> e in Listing(t, q, c) && Before(q.descending, last, e)
  {
    ListingHas(t, q, c, last);
    ListingHas(t, q, c, e);
    ListingHas(t, q, Cursor(last.timestamp, last.id), e);
    PastIsBefore(q.descending, last, e);
    if Before(q.descending, last, e) { PastFurther(q.descending, c, last, e); }
  }

  /** The listing past the `j`th entry is the rest of the listing. */
  lemma ListingPast(t: Table, q: Query, c: Cursor, j: nat)
    requires TableOk(t) && 1 <= j <= |Listing(t, q, c)|
    ensures Listing(t, q, CursorAfter(c, Listing(t, q, c)[..j])) == Listing(t, q, c)[j..]
  {
    var all := Listing(t, q, c);
    var last := all[j - 1];
    var rest := Listing(t, q, Cursor(last.timestamp, last.id));
    forall e ensures e in rest <==> e in all[j..] {
      ListingPastAt(t, q, c, last, e);
      OrderedRest(q.descending, all, j, e);
    }
    OrderUnique(q.descending, rest, all[j..]);
  }

  /** The cursor after the first `k` entries of a table. */
  ghost function CursorAt(t: Table, q: Query, k: nat): Cursor
    requires TableOk(t)
  {
    CursorAfter(START, Take(Listing(t, q, START), k))
  }

  lemma CursorAfterTake(s: seq<Entry>, k: nat, size: nat)
    requires k <= |s| && size >= 1
    ensures CursorAfter(CursorAfter(START, Take(s, k)), Take(s[k..], size)) == CursorAfter(START, Take(s, k + size))
  {
    if k < |s| {
      var page, all := Take(s[k..], size), Take(s, k + size);
      assert all[|all| - 1] == page[|page| - 1];
    }
  }

  lemma ListingFrom(t: Table, q: Query, k: nat)
    requires TableOk(t) && 1 <= k <= |Listing(t, q, START)|
    ensures CursorAt(t, q, k).timestamp != "" && Listing(t, q, CursorAt(t, q, k)) == Listing(t, q, START)[k..]
  {
    var all := Listing(t, q, START);
    ListingHas(t, q, START, all[k - 1]);
    ListingPast(t, q, START, k);
  }

  lemma PageFrom(t: Table, q: Query, k: nat)
    requires TableOk(t) && k <= |Listing(t, q, START)|
    ensures Page(t, q, CursorAt(t, q, k), 0) == Take(Listing(t, q, START)[k..], Size(q))
  {
    if k > 0 { ListingFrom(t, q, k); }
  }

  /** On an unchanged table the page after the first `k` entries is the page at offset `k`, and the cursor it
      leaves is again the cursor after all that has been read: seeking and counting read the same pages. */
  lemma SeekIsOffset(t: Table, q: Query, k: nat)
    requires TableOk(t) && k <= |Listing(t, q, START)|
    ensures Page(t, q, CursorAt(t, q, k), 0) == Page(t, q, START, k)
    ensures CursorAfter(CursorAt(t, q, k), Page(t, q, START, k)) == CursorAt(t, q, k + Size(q))
  {
    PageFrom(t, q, k);
    CursorAfterTake(Listing(t, q, START), k, Size(q));
    assert Page(t, q, START, k) == Take(Listing(t, q, START)[k..], Size(q));
  }

  /** A finished walk over an unchanged table reads the whole listing. */
  lemma WalkUnchanged(tables: seq<Table>, t: Table, q: Query)
    requires TablesOk(tables) && AllAre(tables, t) && TableOk(t) && Finished(tables, q, START)
    ensures Walk(tables, q, START) == Listing(t, q, START)
  {
    WalkInOrder(tables, q, START);
    var walk := Walk(tables, q, START);
    forall e ensures e in walk <==> e in Listing(t, q, START) {
      ListingHas(t, q, START, e);
      if e in Listing(t, q, START) { WalkCovers(tables, q, START, e); }
    }
    OrderUnique(q.descending, walk, Listing(t, q, START));
  }

  /** A walk that has read `k` entries ends if the next page is short or the walk after it ends. */
  lemma WalkStep(tables: seq<Table>, t: Table, q: Query, k: nat)
    requires tables != [] && tables[0] == t && TablesOk(tables) && TableOk(t) && k <= |Listing(t, q, START)|
    requires k + Size(q) <= |Listing(t, q, START)| ==> Finished(tables[1..], q, CursorAt(t, q, k + Size(q)))
    ensures Finished(tables, q, CursorAt(t, q, k))
  {
    SeekIsOffset(t, q, k);
    PageFrom(t, q, k);
  }

  /** `pages` pages hold exactly `room` entries. */
  predicate PagesHold(pages: nat, size: nat, room: nat) {
    if pages == 0 then room == 0 else room >= size && PagesHold(pages - 1, size, room - size)
  }

  lemma {:induction false} PagesHoldProduct(pages: nat, size: nat)
    ensures PagesHold(pages, size, pages * size)
  {
    if pages > 0 {
      assert pages * size - size == (pages - 1) * size;
      PagesHoldProduct(pages - 1, size);
    }
  }

  ghost predicate AllAre(tables: seq<Table>, t: Table) {
    forall i :: 0 <= i < |tables| ==> tables[i] == t
  }

  lemma {:induction false} WalkFinishesFrom(tables: seq<Table>, t: Table, q: Query, k: nat, room: nat)
    requires TablesOk(tables) && AllAre(tables, t) && TableOk(t)
    requires k <= |Listing(t, q, START)| < k + room && PagesHold(|tables|, Size(q), room)
    ensures Finished(tables, q, CursorAt(t, q, k))
    decreases |tables|
  {
    if k + Size(q) <= |Listing(t, q, START)| { WalkFinishesFrom(tables[1..], t, q, k + Size(q), room - Size(q)); }
    WalkStep(tables, t, q, k);
  }

  /** On an unchanged table a walk over one page more than the full ones of the listing sees a short page, and
      so ends. */
  lemma WalkFinishes(tables: seq<Table>, t: Table, q: Query)
    requires TablesOk(tables) && AllAre(tables, t) && TableOk(t)
    requires |tables| >= |Listing(t, q, START)| / Size(q) + 1
    ensures Finished(tables, q, START)
  {
    EnoughPages(|Listing(t, q, START)|, Size(q), |tables|);
    PagesHoldProduct(|tables|, Size(q));
    WalkFinishesFrom(tables, t, q, 0, |tables| * Size(q));
  }

  lemma EnoughPages(n: nat, size: nat, pages: nat)
    requires size >= 1 && pages >= n / size + 1
    ensures n < pages * size
  {
    assert n == (n / size) * size + n % size;
    assert pages * size >= (n / size + 1) * size;
  }

  function Reverse(s: seq<Entry>): (r: seq<Entry>)
    ensures |r| == |s| && forall i :: 0 <= i < |r| ==> r[i] == s[|s| - 1 - i]
  {
    seq(|s|, i requires 0 <= i < |s| => s[|s| - 1 - i])
  }

  lemma ReverseOrdered(s: seq<Entry>)
    requires Ordered(false, s)
    ensures Ordered(true, Reverse(s))
  {
  }

  lemma ReverseHas(s: seq<Entry>, e: Entry)
    ensures e in Reverse(s) <==> e in s
  {
    if e in s {
      var i :| 0 <= i < |s| && s[i] == e;
      assert Reverse(s)[|s| - 1 - i] == e;
    }
  }

  /** Newest first is oldest first, backwards. */
  lemma DescendingIsReverse(t: Table, q: Query)
    requires TableOk(t)
    ensures Listing(t, q.(descending := true), START) == Reverse(Listing(t, q.(descending := false), START))
  {
    var up, down := q.(descending := false), q.(descending := true);
    var a, b := Listing(t, up, START), Listing(t, down, START);
    forall e ensures e in b <==> e in Reverse(a) {
      ListingHas(t, up, START, e);
      ListingHas(t, down, START, e);
      ReverseHas(a, e);
    }
    ReverseOrdered(a);
    OrderUnique(true, b, Reverse(a));
  }

  // ---------- the table ----------

  class LogTable {
    var rows: Table

    ghost predicate Valid()
      reads this
    {
      TableOk(rows)
    }

    constructor ()
      ensures Valid() && rows == map[]
    {
      rows := map[];
    }

    method Filled(entry: Entry, now: string) returns (e: Entry)
      ensures e == WithDefaults(entry, now)
    {
      e := entry;
      if e.severity == "" { e := e.(severity := "DEFAULT"); }
      if e.timestamp == "" { e := e.(timestamp := now); }
      if e.payload == "" { e := e.(payload := "{}"); }
      if e.resource == "" { e := e.(resource := "{}"); }
    }

    method WriteLogEntries(entries: seq<Entry>, clock: nat -> string) returns (r: Result<nat, Error>)
      requires Valid() && forall i :: clock(i) != ""
      modifies this
      ensures Valid()
      ensures match Write(old(rows), entries, clock)
              case Err(e) => r == Err(e) && rows == old(rows)
              case Ok(t) => r == Ok(|entries|) && rows == t
    {
      var transaction := rows;
      for k := 0 to |entries|
        invariant rows == old(rows)
        invariant transaction == InsertAll(rows, entries[..k], clock)
        invariant forall i :: 0 <= i < k ==> Complete(entries[i])
      {
        var e := entries[k];
        if e.id == "" || e.project == "" || e.logName == "" {
          assert !Complete(e) && e in entries;
          return Err(FieldsRequired);
        }
        assert entries[..k + 1][..k] == entries[..k] && entries[..k + 1][k] == e;
        e := Filled(e, clock(k));
        if e.id !in transaction { transaction := transaction[e.id := e]; }
      }
      assert entries[..|entries|] == entries;
      InsertAllOk(rows, entries, clock);
      rows := transaction;
      r := Ok(|entries|);
    }

    method DeleteLogEntries(project: string, logName: string) returns (r: Result<nat, Error>)
      requires Valid()
      modifies this
      ensures Valid()
      ensures if project == "" || logName == "" then r == Err(FieldsRequired) && rows == old(rows)
              else rows == Delete(old(rows), project, logName) && r.Ok? && r.value == |old(rows)| - |rows|
    {
      if project == "" || logName == "" { return Err(FieldsRequired); }
      var doomed := set id | id in rows && Doomed(rows[id], project, logName);
      var kept := map id | id in rows && id !in doomed :: rows[id];
      assert kept == Delete(rows, project, logName);
      assert rows.Keys == kept.Keys + doomed;
      rows := kept;
      r := Ok(|doomed|);
    }

    /** The rows of the query in the order it asks for. */
    method RunQuery(q: Query, c: Cursor) returns (ordered: seq<Entry>)
      requires Valid()
      ensures ordered == Listing(rows, q, c)
    {
      var todo := Rows(rows, q, c);
      RowsKeyed(rows, q, c);
      ghost var all := todo;
      ordered := [];
      while todo != {}
        invariant todo <= all && Ordered(q.descending, ordered)
        invariant forall e :: e in ordered <==> e in all && e !in todo
        invariant forall e, x :: e in ordered && x in todo ==> Before(q.descending, e, x)
        decreases todo
      {
        FirstExists(q.descending, todo);
        var m :| m in todo && IsFirst(q.descending, m, todo);
        AppendOrdered(q.descending, ordered, m);
        ordered := ordered + [m];
        todo := todo - {m};
      }
      OrderUnique(q.descending, ordered, Listing(rows, q, c));
    }

    method ListLogEntries(q: Query, c: Cursor, offset: int) returns (r: Result<seq<Entry>, Error>)
      requires Valid()
      ensures r == LoggingModel.ListLogEntries(rows, q, c, offset)
    {
      var pageSize := q.pageSize;
      if pageSize <= 0 { pageSize := 50; }
      if pageSize > 1000 { pageSize := 1000; }
      if q.project == "" { return Err(ProjectRequired); }
      var ordered := RunQuery(q, c);
      if c.timestamp == "" { ordered := Skip(ordered, offset); }
      r := Ok(Take(ordered, pageSize));
    }
  }

  lemma AppendOrdered(descending: bool, s: seq<Entry>, m: Entry)
    requires Ordered(descending, s) && forall e :: e in s ==> Before(descending, e, m)
    ensures Ordered(descending, s + [m])
  {
    assert forall i :: 0 <= i < |s| ==> s[i] in s;
  }
}
