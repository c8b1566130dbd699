/** Keyset paging over the ready table (`next_entry_stmt`): each page holds the first entries, in
    claim order, strictly after the cursor left by the page before. */
module KeysetPaging {

  datatype Option<T> = None | Some(value: T)

  datatype Entry = Entry(slot: int, job: int, queue: string, priority: int, createdAt: int, scheduledAt: Option<int>)

  /** The cursor: what orders entries, and all that is remembered of the last one inspected. */
  datatype Key = Key(priority: int, createdAt: int, job: int)

  function KeyOf(e: Entry): Key { Key(e.priority, e.createdAt, e.job) }

  /** Priority descending, then age, then id. */
  predicate Before(a: Key, b: Key) {
    || b.priority < a.priority
    || (a.priority == b.priority && (a.createdAt < b.createdAt || (a.createdAt == b.createdAt && a.job < b.job)))
  }

  predicate Due(e: Entry, queues: set<string>, now: int) {
    e.queue in queues && (e.scheduledAt.None? || e.scheduledAt.value <= now)
  }

  predicate After(e: Entry, cursor: Option<Key>) {
    cursor.None? || Before(cursor.value, KeyOf(e))
  }

  predicate Eligible(e: Entry, queues: set<string>, now: int, cursor: Option<Key>) {
    Due(e, queues, now) && After(e, cursor)
  }

  // ---------------------------------------------------------------------------------
  // ORDER BY .. LIMIT
  // ---------------------------------------------------------------------------------

  predicate Sorted(s: seq<Entry>) {
    forall i, j :: 0 <= i < j < |s| ==> !Before(KeyOf(s[j]), KeyOf(s[i]))
  }

  lemma SortedCons(h: Entry, t: seq<Entry>)
    requires Sorted(t) && forall x :: x in t ==> !Before(KeyOf(x), KeyOf(h))
    ensures Sorted([h] + t)
  {
    var s := [h] + t;
    forall i, j | 0 <= i < j < |s| ensures !Before(KeyOf(s[j]), KeyOf(s[i])) {
      assert s[j] == t[j - 1] && t[j - 1] in t;
      if i > 0 {
        assert s[i] == t[i - 1];
      }
    }
  }

  /** Entries with equal keys keep the order the table happens to have. */
  function InsertEntry(s: seq<Entry>, e: Entry): (r: seq<Entry>)
    requires Sorted(s)
    ensures Sorted(r)
    ensures forall x :: x in r <==> x in s || x == e
    ensures |r| == |s| + 1
  {
    if s == [] || !Before(KeyOf(s[0]), KeyOf(e)) then
      assert forall x :: x in s ==> exists i :: 0 <= i < |s| && s[i] == x;
      SortedCons(e, s);
      [e] + s
    else
      var rest := InsertEntry(s[1..], e);
      assert s == [s[0]] + s[1..];
      assert forall x :: x in s[1..] ==> exists i :: 1 <= i < |s| && s[i] == x;
      SortedCons(s[0], rest);
      [s[0]] + rest
  }

  /** The rows of a table that qualify, in claim order. */
  function Ordered(table: seq<Entry>, queues: set<string>, now: int, cursor: Option<Key>): (r: seq<Entry>)
    ensures Sorted(r)
  {
    if table == [] then []
    else
      var rest := Ordered(table[1..], queues, now, cursor);
      if Eligible(table[0], queues, now, cursor) then InsertEntry(rest, table[0]) else rest
  }

  lemma {:induction false} OrderedMembers(table: seq<Entry>, queues: set<string>, now: int, cursor: Option<Key>, e: Entry)
    ensures e in Ordered(table, queues, now, cursor) <==> e in table && Eligible(e, queues, now, cursor)
  {
    if table != [] {
      assert table == [table[0]] + table[1..];
      OrderedMembers(table[1..], queues, now, cursor, e);
      var rest := Ordered(table[1..], queues, now, cursor);
      if Eligible(table[0], queues, now, cursor) {
        assert e in InsertEntry(rest, table[0]) <==> e in rest || e == table[0];
      }
    }
  }

  /** `next_entry_stmt`. */
  function NextEntries(table: seq<Entry>, queues: set<string>, now: int, cursor: Option<Key>, limit: nat): seq<Entry> {
    var r := Ordered(table, queues, now, cursor);
    if |r| <= limit then r else r[..limit]
  }

  /** What a page leaves out comes at or after the end of the page, which is strictly after the
      cursor; with a limit of at least one, an eligible entry makes the page non-empty. */
  lemma PageIsFirst(table: seq<Entry>, queues: set<string>, now: int, cursor: Option<Key>, limit: nat, e: Entry)
    requires e in table && Eligible(e, queues, now, cursor) && limit >= 1
    ensures var page := NextEntries(table, queues, now, cursor, limit);
            page != [] && (e in page || !Before(KeyOf(e), KeyOf(page[|page| - 1])))
  {
    var r := Ordered(table, queues, now, cursor);
    OrderedMembers(table, queues, now, cursor, e);
    var i :| 0 <= i < |r| && r[i] == e;
    var page := NextEntries(table, queues, now, cursor, limit);
    if i < |page| {
      assert page[i] == e;
    }
  }

  lemma PageMembers(table: seq<Entry>, queues: set<string>, now: int, cursor: Option<Key>, limit: nat)
    ensures var page := NextEntries(table, queues, now, cursor, limit);
            Sorted(page) && |page| <= limit && forall i :: 0 <= i < |page| ==> page[i] in table && Eligible(page[i], queues, now, cursor)
  {
    var page := NextEntries(table, queues, now, cursor, limit);
    var r := Ordered(table, queues, now, cursor);
    forall i | 0 <= i < |page| ensures page[i] in table && Eligible(page[i], queues, now, cursor) {
      assert page[i] == r[i];
      OrderedMembers(table, queues, now, cursor, page[i]);
    }
  }

  // ---------------------------------------------------------------------------------
  // Following the cursor
  // ---------------------------------------------------------------------------------

  function Keys(page: seq<Entry>): (r: seq<Key>)
    ensures |r| == |page| && forall i :: 0 <= i < |page| ==> r[i] == KeyOf(page[i])
  {
    seq(|page|, i requires 0 <= i < |page| => KeyOf(page[i]))
  }

  predicate KeysSorted(s: seq<Key>) {
    forall i, j :: 0 <= i < j < |s| ==> !Before(s[j], s[i])
  }

  predicate KeysStrict(s: seq<Key>) {
    forall i, j :: 0 <= i < j < |s| ==> Before(s[i], s[j])
  }

  /** The number of entries a cursor leaves to visit. */
  function Left(table: seq<Entry>, queues: set<string>, now: int, cursor: Option<Key>): nat {
    if table == [] then 0
    else (if Eligible(table[0], queues, now, cursor) then 1 else 0) + Left(table[1..], queues, now, cursor)
  }

  lemma {:induction false} CursorLeavesLess(table: seq<Entry>, queues: set<string>, now: int, cursor: Option<Key>, e: Entry)
    requires Eligible(e, queues, now, cursor)
    ensures Left(table, queues, now, Some(KeyOf(e))) <= Left(table, queues, now, cursor)
    ensures e in table ==> Left(table, queues, now, Some(KeyOf(e))) < Left(table, queues, now, cursor)
  {
    if table != [] {
      assert table == [table[0]] + table[1..];
      CursorLeavesLess(table[1..], queues, now, cursor, e);
    }
  }

  /** The keys of due entries. */
  ghost predicate IsDueKey(table: seq<Entry>, queues: set<string>, now: int, k: Key) {
    exists e :: e in table && Due(e, queues, now) && KeyOf(e) == k
  }

  /** What has been visited once the scan stands at `cursor`: sorted, due, not past the cursor, and
      all that is due up to the cursor. */
  ghost predicate VisitedUpTo(table: seq<Entry>, queues: set<string>, now: int, cursor: Option<Key>, visited: seq<Key>) {
    && KeysSorted(visited)
    && (forall k :: k in visited ==> IsDueKey(table, queues, now, k))
    && (forall k :: k in visited ==> cursor.Some? && !Before(cursor.value, k))
    && (forall e :: e in table && Due(e, queues, now) && !After(e, cursor) ==> KeyOf(e) in visited)
  }

  /** A page lies strictly after everything visited before it. */
  lemma PageAfterVisited(table: seq<Entry>, queues: set<string>, now: int, cursor: Option<Key>, limit: nat, visited: seq<Key>)
    requires VisitedUpTo(table, queues, now, cursor, visited)
    ensures var page := Keys(NextEntries(table, queues, now, cursor, limit));
            KeysSorted(page) && forall i, k :: 0 <= i < |page| && k in visited ==> Before(k, page[i])
  {
    var page := NextEntries(table, queues, now, cursor, limit);
    PageMembers(table, queues, now, cursor, limit);
    forall i, k | 0 <= i < |page| && k in visited ensures Before(k, KeyOf(page[i])) {
      assert Eligible(page[i], queues, now, cursor);
    }
  }

  lemma SortedAppend(visited: seq<Key>, page: seq<Key>)
    requires KeysSorted(visited) && KeysSorted(page)
    requires forall i, k :: 0 <= i < |page| && k in visited ==> Before(k, page[i])
    ensures KeysSorted(visited + page)
    ensures |page| == 1 && KeysStrict(visited) ==> KeysStrict(visited + page)
  {
    var next := visited + page;
    forall i, j | 0 <= i < j < |next| && i < |visited| && j >= |visited| ensures Before(next[i], next[j]) {
      assert visited[i] in visited && next[j] == page[j - |visited|];
    }
  }

  lemma PageIsDue(table: seq<Entry>, queues: set<string>, now: int, cursor: Option<Key>, limit: nat, k: Key)
    requires k in Keys(NextEntries(table, queues, now, cursor, limit))
    ensures var page := NextEntries(table, queues, now, cursor, limit);
            IsDueKey(table, queues, now, k) && page != [] && !Before(KeyOf(page[|page| - 1]), k)
  {
    var page := NextEntries(table, queues, now, cursor, limit);
    PageMembers(table, queues, now, cursor, limit);
    var i :| 0 <= i < |page| && Keys(page)[i] == k;
    assert page[i] in table;
  }

  lemma PageReaches(table: seq<Entry>, queues: set<string>, now: int, cursor: Option<Key>, limit: nat, e: Entry)
    requires limit >= 1 && NextEntries(table, queues, now, cursor, limit) != []
    requires e in table && Due(e, queues, now) && After(e, cursor)
    requires var page := NextEntries(table, queues, now, cursor, limit); !After(e, Some(KeyOf(page[|page| - 1])))
    ensures KeyOf(e) in Keys(NextEntries(table, queues, now, cursor, limit))
  {
    var page := NextEntries(table, queues, now, cursor, limit);
    PageIsFirst(table, queues, now, cursor, limit, e);
    if e in page {
      var i :| 0 <= i < |page| && page[i] == e;
      assert Keys(page)[i] == KeyOf(e);
    } else {
      assert KeyOf(e) == Keys(page)[|page| - 1];
    }
  }

  /** One page moves the scan on. */
  lemma PageAdvances(table: seq<Entry>, queues: set<string>, now: int, cursor: Option<Key>, limit: nat, visited: seq<Key>)
    requires limit >= 1 && VisitedUpTo(table, queues, now, cursor, visited)
    requires NextEntries(table, queues, now, cursor, limit) != []
    ensures var page := NextEntries(table, queues, now, cursor, limit);
            var last := KeyOf(page[|page| - 1]);
            && VisitedUpTo(table, queues, now, Some(last), visited + Keys(page))
            && Left(table, queues, now, Some(last)) < Left(table, queues, now, cursor)
            && (limit == 1 && KeysStrict(visited) ==> KeysStrict(visited + Keys(page)))
  {
    var page := NextEntries(table, queues, now, cursor, limit);
    PageMembers(table, queues, now, cursor, limit);
    PageAfterVisited(table, queues, now, cursor, limit, visited);
    SortedAppend(visited, Keys(page));
    var last := page[|page| - 1];
    CursorLeavesLess(table, queues, now, cursor, last);
    forall k | k in visited + Keys(page) ensures IsDueKey(table, queues, now, k) && !Before(KeyOf(last), k) {
      if k in visited {
        assert Before(k, Keys(page)[|page| - 1]);
      } else {
        PageIsDue(table, queues, now, cursor, limit, k);
      }
    }
    forall e | e in table && Due(e, queues, now) && !After(e, Some(KeyOf(last))) ensures KeyOf(e) in visited + Keys(page) {
      if After(e, cursor) {
        PageReaches(table, queues, now, cursor, limit, e);
      }
    }
  }

  /** The scan over a table that does not change: it ends, and visits the keys of exactly the due
      entries in claim order; a key never comes back on a later page, so pages of one visit each
      key once. */
  method Walk(table: seq<Entry>, queues: set<string>, now: int, limit: nat) returns (visited: seq<Key>)
    requires limit >= 1
    ensures KeysSorted(visited)
    ensures forall k :: k in visited <==> IsDueKey(table, queues, now, k)
    ensures forall k :: k in visited <==>
      (exists e :: e in table && e.queue in queues && (e.scheduledAt.None? || e.scheduledAt.value <= now) &&
                   e.priority == k.priority && e.createdAt == k.createdAt && e.job == k.job)
    ensures forall i, j :: 0 <= i < j < |visited| ==>
      (|| visited[i].priority > visited[j].priority
       || (visited[i].priority == visited[j].priority &&
           (visited[i].createdAt < visited[j].createdAt ||
            (visited[i].createdAt == visited[j].createdAt && visited[i].job <= visited[j].job))))
    ensures limit == 1 ==> KeysStrict(visited)
  {
    visited := [];
    var cursor: Option<Key> := None;
    while true
      invariant VisitedUpTo(table, queues, now, cursor, visited)
      invariant limit == 1 ==> KeysStrict(visited)
      decreases Left(table, queues, now, cursor)
    {
      var page := NextEntries(table, queues, now, cursor, limit);
      if page == [] {
        forall e | e in table && Due(e, queues, now) ensures KeyOf(e) in visited {
          if After(e, cursor) {
            PageIsFirst(table, queues, now, cursor, limit, e);
          }
        }
        return;
      }
      PageAdvances(table, queues, now, cursor, limit, visited);
      visited := visited + Keys(page);
      cursor := Some(KeyOf(page[|page| - 1]));
    }
  }

  // ---------------------------------------------------------------------------------
  // A table that changes between pages
  // ---------------------------------------------------------------------------------

  /** The keys seen by a scan whose i-th statement finds the table as `tables[i]`; `done` says that
      it ended by an empty page. */
  datatype Scan = Scan(keys: seq<Key>, done: bool)

  function ScanOver(tables: seq<seq<Entry>>, queues: set<string>, now: int, limit: nat, cursor: Option<Key>): Scan
    decreases |tables|
  {
    if tables == [] then Scan([], false)
    else
      var page := NextEntries(tables[0], queues, now, cursor, limit);
      if page == [] then Scan([], true)
      else
        var rest := ScanOver(tables[1..], queues, now, limit, Some(KeyOf(page[|page| - 1])));
        Scan(Keys(page) + rest.keys, rest.done)
  }

  /** Whatever is inserted and deleted between pages, the keys of later pages are strictly after
      those of earlier ones. */
  lemma {:induction false} ScanAdvances(tables: seq<seq<Entry>>, queues: set<string>, now: int, limit: nat, cursor: Option<Key>)
    ensures forall k :: k in ScanOver(tables, queues, now, limit, cursor).keys ==> cursor.None? || Before(cursor.value, k)
    decreases |tables|
  {
    if tables != [] && NextEntries(tables[0], queues, now, cursor, limit) != [] {
      var page := NextEntries(tables[0], queues, now, cursor, limit);
      var last := KeyOf(page[|page| - 1]);
      var rest := ScanOver(tables[1..], queues, now, limit, Some(last));
      assert ScanOver(tables, queues, now, limit, cursor).keys == Keys(page) + rest.keys;
      ScanAdvances(tables[1..], queues, now, limit, Some(last));
      PageIsAfterCursor(tables[0], queues, now, limit, cursor);
      assert Keys(page)[|page| - 1] == last;
      forall k | k in rest.keys ensures cursor.None? || Before(cursor.value, k) {
        assert Before(last, k) && (cursor.None? || Before(cursor.value, Keys(page)[|page| - 1]));
      }
    }
  }

  lemma PageIsAfterCursor(table: seq<Entry>, queues: set<string>, now: int, limit: nat, cursor: Option<Key>)
    ensures forall k :: k in Keys(NextEntries(table, queues, now, cursor, limit)) ==> cursor.None? || Before(cursor.value, k)
  {
    var page := NextEntries(table, queues, now, cursor, limit);
    PageMembers(table, queues, now, cursor, limit);
    forall k | k in Keys(page) ensures cursor.None? || Before(cursor.value, k) {
      var i :| 0 <= i < |page| && Keys(page)[i] == k;
      assert Eligible(page[i], queues, now, cursor);
    }
  }

  /** A page that holds an entry, or ends at its key, visits its key. */
  lemma PageVisits(page: seq<Entry>, e: Entry)
    requires page != [] && (e in page || KeyOf(e) == KeyOf(page[|page| - 1]))
    ensures KeyOf(e) in Keys(page)
  {
    if e in page {
      var i :| 0 <= i < |page| && page[i] == e;
      assert Keys(page)[i] == KeyOf(e);
    } else {
      assert Keys(page)[|page| - 1] == KeyOf(e);
    }
  }

  /** An entry that is there at every statement of a scan that ends is visited, despite any
      concurrent inserts and deletes. */
  lemma {:induction false} PresentThroughoutIsVisited(tables: seq<seq<Entry>>, queues: set<string>, now: int, limit: nat,
                                                     cursor: Option<Key>, e: Entry)
    requires limit >= 1 && forall i :: 0 <= i < |tables| ==> e in tables[i]
    requires Eligible(e, queues, now, cursor)
    requires ScanOver(tables, queues, now, limit, cursor).done
    ensures KeyOf(e) in ScanOver(tables, queues, now, limit, cursor).keys
    decreases |tables|
  {
    var page := NextEntries(tables[0], queues, now, cursor, limit);
    PageIsFirst(tables[0], queues, now, cursor, limit, e);
    var last := KeyOf(page[|page| - 1]);
    var rest := ScanOver(tables[1..], queues, now, limit, Some(last));
    assert ScanOver(tables, queues, now, limit, cursor) == Scan(Keys(page) + rest.keys, rest.done);
    if e in page || KeyOf(e) == last {
      PageVisits(page, e);
    } else {
      PresentThroughoutIsVisited(tables[1..], queues, now, limit, Some(last), e);
    }
  }
}
