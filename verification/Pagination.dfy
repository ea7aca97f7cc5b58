/**
 Cursor paging in the API: a page asks for one row more than its limit, and the id of the last row
 it keeps is the cursor of the next page. Devices are listed by id, snapshots by time taken.
 */
module Pagination {
  import opened Wrappers
  import opened Sequences

  datatype Row<A> = Row(id: nat, attrs: A)

  // ---------- One page ----------

  /** The rows behind the cursor, in listing order. */
  function Behind<A(!new)>(rows: seq<Row<A>>, cursor: Option<nat>): (r: seq<Row<A>>)
    ensures |r| <= |rows|
    ensures forall x :: x in r <==> x in rows && (cursor.Some? ==> cursor.value < x.id)
  {
    if rows == [] then []
    else (if cursor.Some? && rows[0].id <= cursor.value then [] else [rows[0]]) + Behind(rows[1..], cursor)
  }

  datatype Page<A> = Page(items: seq<Row<A>>, next: Option<nat>)

  /** The page of a listing: at most `limit` rows, and a cursor exactly when there are more. */
  function PageOf<A(!new)>(rows: seq<Row<A>>, cursor: Option<nat>, limit: nat): Page<A>
    requires limit > 0
  {
    var found := Behind(rows, cursor);
    if |found| > limit then Page(found[..limit], Some(found[limit - 1].id)) else Page(found, None)
  }

  // ---------- devices.list ----------

  /** `hits` are the search texts whose pattern name, description or address matches. */
  datatype Device = Device(org: nat, status: string, site: string, tags: set<string>, hits: set<string>)

  datatype ListInput = ListInput(
    limit: nat, cursor: Option<nat>, status: string, site: string, tags: set<string>, search: string)

  datatype Condition =
    | OrgIs(org: nat) | StatusIs(status: string) | SiteIs(site: string)
    | HasTags(tags: set<string>) | Found(search: string) | IdAbove(id: nat)

  predicate Holds(c: Condition, row: Row<Device>) {
    match c
    case OrgIs(org) => row.attrs.org == org
    case StatusIs(status) => row.attrs.status == status
    case SiteIs(site) => row.attrs.site == site
    case HasTags(tags) => tags <= row.attrs.tags
    case Found(search) => search in row.attrs.hits
    case IdAbove(id) => row.id > id
  }

  predicate HoldAll(conditions: seq<Condition>, row: Row<Device>) {
    forall i :: 0 <= i < |conditions| ==> Holds(conditions[i], row)
  }

  /** `SELECT ... WHERE and(conditions) ORDER BY ...` over a table kept in listing order. */
  function Where(table: seq<Row<Device>>, conditions: seq<Condition>): seq<Row<Device>> {
    if table == [] then []
    else (if HoldAll(conditions, table[0]) then [table[0]] else []) + Where(table[1..], conditions)
  }

  /** `LIMIT n`. */
  function Limit<T>(rows: seq<T>, n: nat): seq<T> {
    if |rows| <= n then rows else rows[..n]
  }

  /** What the caller asked for; an absent or empty filter asks for nothing. */
  predicate Wanted(org: nat, input: ListInput, device: Device) {
    && device.org == org
    && (input.status != "" ==> device.status == input.status)
    && (input.site != "" ==> device.site == input.site)
    && input.tags <= device.tags
    && (input.search != "" ==> input.search in device.hits)
  }

  function Matching(org: nat, input: ListInput, table: seq<Row<Device>>): seq<Row<Device>> {
    if table == [] then []
    else (if Wanted(org, input, table[0].attrs) then [table[0]] else []) + Matching(org, input, table[1..])
  }

  /** The matching rows are those that meet every filter given, all of them. */
  lemma {:induction false} MatchingSelected(org: nat, input: ListInput, table: seq<Row<Device>>)
    ensures forall x :: x in Matching(org, input, table) <==>
              && x in table && x.attrs.org == org
              && (input.status == "" || x.attrs.status == input.status)
              && (input.site == "" || x.attrs.site == input.site)
              && (forall tag :: tag in input.tags ==> tag in x.attrs.tags)
              && (input.search == "" || input.search in x.attrs.hits)
  {
    if table != [] {
      MatchingSelected(org, input, table[1..]);
    }
  }

  /** In the table's order. */
  lemma {:induction false} MatchingOrdered(org: nat, input: ListInput, table: seq<Row<Device>>)
    ensures Subsequence(Matching(org, input, table), table)
  {
    if table != [] {
      hide Subsequence, Wanted;
      MatchingOrdered(org, input, table[1..]);
      var rest := Matching(org, input, table[1..]);
      assert table == [table[0]] + table[1..] && [] + rest == rest;
      SubsequenceCons(rest, table[1..], table[0]);
    } else {
      assert Matching(org, input, table) == [];
    }
  }

  function When(b: bool, c: Condition): seq<Condition> {
    if b then [c] else []
  }

  function Conditions(org: nat, input: ListInput): seq<Condition> {
    [OrgIs(org)] + When(input.status != "", StatusIs(input.status)) + When(input.site != "", SiteIs(input.site))
    + When(input.tags != {}, HasTags(input.tags)) + When(input.search != "", Found(input.search))
    + if input.cursor.Some? then [IdAbove(input.cursor.value)] else []
  }

  lemma HoldAllConcat(a: seq<Condition>, b: seq<Condition>, row: Row<Device>)
    ensures HoldAll(a + b, row) <==> HoldAll(a, row) && HoldAll(b, row)
  {
    assert forall i :: 0 <= i < |a| ==> (a + b)[i] == a[i];
    assert forall i :: 0 <= i < |b| ==> (a + b)[|a| + i] == b[i];
  }

  lemma WhenHolds(b: bool, c: Condition, row: Row<Device>)
    ensures HoldAll(When(b, c), row) <==> (b ==> Holds(c, row))
  {
    assert [c][0] == c;
  }

  lemma ConditionsMeanWanted(org: nat, input: ListInput, row: Row<Device>)
    ensures HoldAll(Conditions(org, input), row) <==>
            Wanted(org, input, row.attrs) && (input.cursor.Some? ==> row.id > input.cursor.value)
  {
    var c0 := [OrgIs(org)];
    var c1 := When(input.status != "", StatusIs(input.status));
    var c2 := When(input.site != "", SiteIs(input.site));
    var c3 := When(input.tags != {}, HasTags(input.tags));
    var c4 := When(input.search != "", Found(input.search));
    var c5 := if input.cursor.Some? then [IdAbove(input.cursor.value)] else [];
    WhenHolds(true, OrgIs(org), row);
    WhenHolds(input.status != "", StatusIs(input.status), row);
    WhenHolds(input.site != "", SiteIs(input.site), row);
    WhenHolds(input.tags != {}, HasTags(input.tags), row);
    WhenHolds(input.search != "", Found(input.search), row);
    if input.cursor.Some? { WhenHolds(true, IdAbove(input.cursor.value), row); }
    HoldAllConcat(c0, c1, row);
    HoldAllConcat(c0 + c1, c2, row);
    HoldAllConcat(c0 + c1 + c2, c3, row);
    HoldAllConcat(c0 + c1 + c2 + c3, c4, row);
    HoldAllConcat(c0 + c1 + c2 + c3 + c4, c5, row);
  }

  lemma {:induction false} WhereIsBehind(table: seq<Row<Device>>, org: nat, input: ListInput)
    ensures Where(table, Conditions(org, input)) == Behind(Matching(org, input, table), input.cursor)
  {
    if table != [] {
      hide HoldAll, Wanted, Conditions;
      ConditionsMeanWanted(org, input, table[0]);
      WhereIsBehind(table[1..], org, input);
      var rest := Matching(org, input, table[1..]);
      assert ([table[0]] + rest)[1..] == rest;
      assert [] + rest == rest;
    }
  }

  /** The `list` procedure, over the table as the database lists it for this query. */
  method ListDevices(table: seq<Row<Device>>, org: nat, input: ListInput) returns (page: Page<Device>)
    requires input.limit > 0
    ensures page == PageOf(Matching(org, input, table), input.cursor, input.limit)
  {
    hide Where, Matching, Behind, Conditions;
    var conditions := BuildConditions(org, input);
    WhereIsBehind(table, org, input);
    var rows := Limit(Where(table, conditions), input.limit + 1);
    page := CutPage(rows, input.limit);
    CutIsPage(Where(table, conditions), input.limit, page);
  }

  /** The `conditions` array, pushed onto one filter at a time. */
  method BuildConditions(org: nat, input: ListInput) returns (conditions: seq<Condition>)
    ensures conditions == Conditions(org, input)
  {
    conditions := [OrgIs(org)];
    ghost var c := conditions + When(input.status != "", StatusIs(input.status));
    if input.status != "" { conditions := conditions + [StatusIs(input.status)]; }
    assert conditions == c;
    c := c + When(input.site != "", SiteIs(input.site));
    if input.site != "" { conditions := conditions + [SiteIs(input.site)]; }
    assert conditions == c;
    c := c + When(input.tags != {}, HasTags(input.tags));
    if |input.tags| > 0 { conditions := conditions + [HasTags(input.tags)]; }
    assert conditions == c;
    c := c + When(input.search != "", Found(input.search));
    if input.search != "" { conditions := conditions + [Found(input.search)]; }
    assert conditions == c;
    if input.cursor.Some? { conditions := conditions + [IdAbove(input.cursor.value)]; }
  }

  /** The end of both procedures: drop the extra row and point the cursor at the last one kept. */
  method CutPage<A>(rows: seq<Row<A>>, limit: nat) returns (page: Page<A>)
    requires limit > 0
    ensures page.items <= rows && |page.items| == if |rows| < limit then |rows| else limit
    ensures page.next.Some? <==> |page.items| < |rows|
    ensures page.next.Some? ==> page.next.value == page.items[|page.items| - 1].id
  {
    var hasMore := |rows| > limit;
    var items := if hasMore then rows[..limit] else rows;
    page := Page(items, if hasMore then Some(items[|items| - 1].id) else None);
  }

  /** Fetching one row more than the limit is enough to cut the page of the whole listing. */
  lemma CutIsPage<A>(found: seq<Row<A>>, limit: nat, page: Page<A>)
    requires limit > 0
    requires var rows := Limit(found, limit + 1);
             && page.items <= rows && |page.items| == (if |rows| < limit then |rows| else limit)
             && (page.next.Some? <==> |page.items| < |rows|)
             && (page.next.Some? ==> page.next.value == page.items[|page.items| - 1].id)
    ensures page == if |found| > limit then Page(found[..limit], Some(found[limit - 1].id)) else Page(found, None)
  {
    var rows := Limit(found, limit + 1);
    assert page.items == rows[..|page.items|];
    if |found| > limit {
      assert page.items == found[..limit];
    } else {
      assert page.items == found;
    }
  }

  // ---------- listSnapshots ----------

  datatype Snapshot = Snapshot(device: nat, org: nat, takenAt: int)

  function SnapshotsOf(device: nat, org: nat, table: seq<Row<Snapshot>>): seq<Row<Snapshot>> {
    if table == [] then []
    else (if table[0].attrs.device == device && table[0].attrs.org == org then [table[0]] else [])
         + SnapshotsOf(device, org, table[1..])
  }

  /** They are the rows of that device and organisation, all of them. */
  lemma {:induction false} SnapshotsSelected(device: nat, org: nat, table: seq<Row<Snapshot>>)
    ensures forall x :: x in SnapshotsOf(device, org, table)
              <==> x in table && x.attrs.device == device && x.attrs.org == org
  {
    if table != [] {
      SnapshotsSelected(device, org, table[1..]);
    }
  }

  /** In the table's order. */
  lemma {:induction false} SnapshotsOrdered(device: nat, org: nat, table: seq<Row<Snapshot>>)
    ensures Subsequence(SnapshotsOf(device, org, table), table)
  {
    if table != [] {
      hide Subsequence;
      SnapshotsOrdered(device, org, table[1..]);
      var rest := SnapshotsOf(device, org, table[1..]);
      assert table == [table[0]] + table[1..] && [] + rest == rest;
      SubsequenceCons(rest, table[1..], table[0]);
    } else {
      assert SnapshotsOf(device, org, table) == [];
    }
  }

  /** `None` is NOT_FOUND: the device is not the organisation's. `table` is listed by time taken, latest first. */
  method ListSnapshots(table: seq<Row<Snapshot>>, owned: bool, device: nat, org: nat, cursor: Option<nat>, limit: nat)
    returns (page: Option<Page<Snapshot>>)
    requires limit > 0
    ensures page == if owned then Some(PageOf(SnapshotsOf(device, org, table), cursor, limit)) else None
  {
    if !owned { return None; }
    var found := Behind(SnapshotsOf(device, org, table), cursor);
    var cut := CutPage(Limit(found, limit + 1), limit);
    CutIsPage(found, limit, cut);
    page := Some(cut);
  }

  // ---------- Following the cursor while rows change ----------

  /** The pages fetched, and whether the last one had no cursor. */
  datatype Walk<A> = Walk(pages: seq<seq<Row<A>>>, ended: bool)

  /** `listings[i]` is what the i-th request finds to list. */
  function Follow<A(!new)>(listings: seq<seq<Row<A>>>, cursor: Option<nat>, limit: nat): (w: Walk<A>)
    requires limit > 0
    ensures |w.pages| <= |listings|
    decreases |listings|
  {
    if listings == [] then Walk([], false) else
      var page := PageOf(listings[0], cursor, limit);
      if page.next.None? then Walk([page.items], true) else
        var more := Follow(listings[1..], page.next, limit);
        Walk([page.items] + more.pages, more.ended)
  }

  /** Listed by id, and ids are unique: a device listing. */
  ghost predicate Ascending<A(!new)>(rows: seq<Row<A>>) {
    forall i, j :: 0 <= i < j < |rows| ==> rows[i].id < rows[j].id
  }

  ghost predicate AllAbove<A(!new)>(rows: seq<Row<A>>, cursor: Option<nat>) {
    forall x :: x in rows && cursor.Some? ==> cursor.value < x.id
  }

  lemma {:induction false} BehindAscending<A(!new)>(rows: seq<Row<A>>, cursor: Option<nat>)
    requires Ascending(rows)
    ensures Ascending(Behind(rows, cursor))
  {
    if rows != [] {
      BehindAscending(rows[1..], cursor);
      var rest := Behind(rows[1..], cursor);
      forall j | 0 <= j < |rest| ensures rows[0].id < rest[j].id {
        assert rest[j] in rows[1..];
      }
    }
  }

  ghost predicate HasId<A(!new)>(rows: seq<Row<A>>, id: nat) {
    exists x :: x in rows && x.id == id
  }

  /** The row with this id exists and matches at every request of the walk, whatever its other columns do. */
  ghost predicate InAll<A(!new)>(id: nat, listings: seq<seq<Row<A>>>) {
    forall i :: 0 <= i < |listings| ==> HasId(listings[i], id)
  }

  /** A cursor at row `n - 1` of an ascending listing separates the first `n` rows from the others. */
  lemma CutSplits<A(!new)>(found: seq<Row<A>>, n: nat)
    requires Ascending(found) && 0 < n < |found|
    ensures Ascending(found[..n])
    ensures forall x :: x in found[..n] ==> x in found && x.id <= found[n - 1].id
    ensures forall x :: x in found ==> x in found[..n] || found[n - 1].id < x.id
  {
    forall x | x in found ensures x in found[..n] || found[n - 1].id < x.id {
      var j :| 0 <= j < |found| && found[j] == x;
      assert j < n ==> found[..n][j] == x;
    }
  }

  /** The page splits what is behind the cursor at its own cursor. */
  lemma PageSplits<A(!new)>(rows: seq<Row<A>>, cursor: Option<nat>, limit: nat)
    requires limit > 0 && Ascending(rows)
    ensures var page := PageOf(rows, cursor, limit);
            && Ascending(page.items) && AllAbove(page.items, cursor)
            && (forall x :: x in page.items ==> x in rows)
            && (page.next.Some? ==> |page.items| == limit && page.next.value == page.items[limit - 1].id)
            && (page.next.Some? ==> forall x :: x in page.items ==> x.id <= page.next.value)
            && (page.next.Some? && cursor.Some? ==> cursor.value < page.next.value)
            && (forall x :: x in rows && (cursor.Some? ==> cursor.value < x.id) ==>
                  x in page.items || (page.next.Some? && page.next.value < x.id))
  {
    BehindAscending(rows, cursor);
    var found := Behind(rows, cursor);
    hide Ascending;
    if |found| > limit {
      CutSplits(found, limit);
      assert found[limit - 1] in found;
    }
  }

  lemma AscendingConcat<A(!new)>(a: seq<Row<A>>, b: seq<Row<A>>, pivot: nat)
    requires Ascending(a) && Ascending(b) && (forall x :: x in a ==> x.id <= pivot) && AllAbove(b, Some(pivot))
    ensures Ascending(a + b)
  {
    forall i, j | 0 <= i < j < |a + b| ensures (a + b)[i].id < (a + b)[j].id {
      if i < |a| <= j {
        assert a[i] in a && b[j - |a|] in b;
      }
    }
  }

  /** The walk, page by page. */
  lemma FollowStep<A(!new)>(listings: seq<seq<Row<A>>>, cursor: Option<nat>, limit: nat)
    requires limit > 0 && listings != []
    ensures var w, page := Follow(listings, cursor, limit), PageOf(listings[0], cursor, limit);
            if page.next.None? then w == Walk([page.items], true) && Flatten(w.pages) == page.items
            else
              var more := Follow(listings[1..], page.next, limit);
              && w == Walk([page.items] + more.pages, more.ended)
              && Flatten(w.pages) == page.items + Flatten(more.pages)
  {
    var page := PageOf(listings[0], cursor, limit);
    FlattenOne(page.items);
    if page.next.Some? { FlattenCons(page.items, Follow(listings[1..], page.next, limit).pages); }
  }

  lemma {:induction false} WalkAscends<A(!new)>(listings: seq<seq<Row<A>>>, cursor: Option<nat>, limit: nat)
    requires limit > 0 && forall i :: 0 <= i < |listings| ==> Ascending(listings[i])
    ensures var w := Follow(listings, cursor, limit);
            && Ascending(Flatten(w.pages)) && AllAbove(Flatten(w.pages), cursor)
            && (forall i, x :: 0 <= i < |w.pages| && x in w.pages[i] ==> x in listings[i])
    decreases |listings|
  {
    if listings != [] {
      hide Follow, PageOf, Ascending;
      FollowStep(listings, cursor, limit);
      PageSplits(listings[0], cursor, limit);
      var page := PageOf(listings[0], cursor, limit);
      if page.next.Some? {
        var more := Follow(listings[1..], page.next, limit);
        WalkAscends(listings[1..], page.next, limit);
        AscendingConcat(page.items, Flatten(more.pages), page.next.value);
      }
    }
  }

  lemma {:induction false} WalkMissesNothing<A(!new)>(
    listings: seq<seq<Row<A>>>, cursor: Option<nat>, limit: nat, id: nat)
    requires limit > 0 && forall i :: 0 <= i < |listings| ==> Ascending(listings[i])
    requires Follow(listings, cursor, limit).ended && (cursor.Some? ==> cursor.value < id)
    requires InAll(id, listings[..|Follow(listings, cursor, limit).pages|])
    ensures HasId(Flatten(Follow(listings, cursor, limit).pages), id)
    decreases |listings|
  {
    var w := Follow(listings, cursor, limit);
    InAllTail(id, listings, |w.pages|);
    FollowStep(listings, cursor, limit);
    hide Follow, PageOf, Ascending;
    PageSplits(listings[0], cursor, limit);
    var page := PageOf(listings[0], cursor, limit);
    var x :| x in listings[0] && x.id == id;
    if x in page.items {
      assert x in Flatten(w.pages);
    } else {
      WalkMissesNothing(listings[1..], page.next, limit, id);
      var y :| y in Flatten(Follow(listings[1..], page.next, limit).pages) && y.id == id;
      assert y in Flatten(w.pages);
    }
  }

  lemma InAllTail<A(!new)>(id: nat, listings: seq<seq<Row<A>>>, n: nat)
    requires 0 < n <= |listings| && InAll(id, listings[..n])
    ensures HasId(listings[0], id) && InAll(id, listings[1..][..n - 1])
  {
    assert listings[..n][0] == listings[0];
    var later := listings[1..][..n - 1];
    forall i | 0 <= i < |later| ensures HasId(later[i], id) {
      assert later[i] == listings[..n][i + 1];
    }
  }

  /**
   While rows are inserted, deleted and changed at will between requests: ids come in strictly
   ascending order, so none comes twice; each row was there when its page was fetched; and a walk
   that ends has returned every id that was there throughout.
   */
  lemma WalkUnderChange<A(!new)>(listings: seq<seq<Row<A>>>, cursor: Option<nat>, limit: nat)
    requires limit > 0 && forall i :: 0 <= i < |listings| ==> Ascending(listings[i])
    ensures var w := Follow(listings, cursor, limit);
            && Ascending(Flatten(w.pages)) && AllAbove(Flatten(w.pages), cursor)
            && (forall i, x :: 0 <= i < |w.pages| && x in w.pages[i] ==> x in listings[i])
            && (w.ended ==> forall id :: InAll(id, listings[..|w.pages|]) && (cursor.Some? ==> cursor.value < id)
                              ==> HasId(Flatten(w.pages), id))
  {
    hide Follow, Ascending, InAll, HasId;
    WalkAscends(listings, cursor, limit);
    var w := Follow(listings, cursor, limit);
    forall id | w.ended && InAll(id, listings[..|w.pages|]) && (cursor.Some? ==> cursor.value < id)
      ensures HasId(Flatten(w.pages), id)
    {
      WalkMissesNothing(listings, cursor, limit, id);
    }
  }

  lemma FlattenOne<T>(xs: seq<T>)
    ensures Flatten([xs]) == xs
  {
    assert [xs][1..] == [];
    assert xs + Flatten([]) == xs;
  }

  // ---------- Following the cursor over a listing that does not change ----------

  ghost predicate DistinctIds<A(!new)>(rows: seq<Row<A>>) {
    forall i, j :: 0 <= i < j < |rows| ==> rows[i].id != rows[j].id
  }

  /** All pages of one listing. */
  function Pages<A(!new)>(rows: seq<Row<A>>, cursor: Option<nat>, limit: nat): (pages: seq<seq<Row<A>>>)
    requires limit > 0
    ensures |pages| > 0
    decreases |Behind(rows, cursor)|
  {
    var page := PageOf(rows, cursor, limit);
    if page.next.None? then [page.items] else
      BehindShrinks(rows, cursor, limit);
      [page.items] + Pages(rows, page.next, limit)
  }

  lemma {:induction false} BehindTwice<A(!new)>(rows: seq<Row<A>>, cursor: Option<nat>, later: nat)
    requires cursor.Some? ==> cursor.value <= later
    ensures Behind(Behind(rows, cursor), Some(later)) == Behind(rows, Some(later))
  {
    if rows != [] {
      BehindTwice(rows[1..], cursor, later);
      var rest := Behind(rows[1..], cursor);
      assert ([rows[0]] + rest)[1..] == rest;
      assert [] + rest == rest;
    }
  }

  lemma {:induction false} BehindConcat<A(!new)>(a: seq<Row<A>>, b: seq<Row<A>>, cursor: Option<nat>)
    ensures Behind(a + b, cursor) == Behind(a, cursor) + Behind(b, cursor)
  {
    if a == [] {
      assert a + b == b;
    } else {
      assert (a + b)[1..] == a[1..] + b;
      BehindConcat(a[1..], b, cursor);
    }
  }

  lemma {:induction false} BehindAll<A(!new)>(rows: seq<Row<A>>, cursor: Option<nat>)
    requires AllAbove(rows, cursor)
    ensures Behind(rows, cursor) == rows
  {
    if rows != [] {
      assert rows[0] in rows;
      BehindAll(rows[1..], cursor);
    }
  }

  lemma {:induction false} BehindNone<A(!new)>(rows: seq<Row<A>>, cursor: nat)
    requires forall x :: x in rows ==> x.id <= cursor
    ensures Behind(rows, Some(cursor)) == []
  {
    if rows != [] {
      assert rows[0] in rows;
      BehindNone(rows[1..], cursor);
    }
  }

  /** The next page starts from strictly fewer rows: the row at the cursor is not behind itself. */
  lemma BehindShrinks<A(!new)>(rows: seq<Row<A>>, cursor: Option<nat>, limit: nat)
    requires limit > 0 && PageOf(rows, cursor, limit).next.Some?
    ensures |Behind(rows, PageOf(rows, cursor, limit).next)| < |Behind(rows, cursor)|
    ensures cursor.Some? ==> cursor.value < PageOf(rows, cursor, limit).next.value
  {
    hide Behind;
    var found := Behind(rows, cursor);
    var last := found[limit - 1];
    assert last in found;
    BehindTwice(rows, cursor, last.id);
    BehindSplit(found, limit - 1, Some(last.id));
    LastNotBehind(last, found[limit..]);
    assert found[limit - 1..] == [last] + found[limit..];
  }

  lemma LastNotBehind<A(!new)>(last: Row<A>, others: seq<Row<A>>)
    ensures |Behind([last] + others, Some(last.id))| <= |others|
  {
    assert ([last] + others)[1..] == others;
  }

  /** Row `b` separates the rows before it from those after it by id. */
  ghost predicate Pivot<A(!new)>(rows: seq<Row<A>>, b: nat)
    requires b < |rows|
  {
    && (forall x :: x in rows[..b] ==> x.id < rows[b].id)
    && (forall x :: x in rows[b + 1..] ==> rows[b].id < x.id)
  }

  /** The last row of every page but the last separates its page from what comes after. */
  ghost predicate PivotsAtBoundaries<A(!new)>(rows: seq<Row<A>>, limit: nat)
    requires limit > 0
    decreases |rows|
  {
    |rows| <= limit || (Pivot(rows, limit - 1) && PivotsAtBoundaries(rows[limit..], limit))
  }

  /** Behind a pivot are exactly the rows after it. */
  lemma BehindPivot<A(!new)>(found: seq<Row<A>>, b: nat)
    requires b < |found| && Pivot(found, b)
    ensures Behind(found, Some(found[b].id)) == found[b + 1..]
  {
    hide Behind;
    var last := found[b];
    BehindSplit(found, b + 1, Some(last.id));
    assert forall x :: x in found[..b + 1] ==> x in found[..b] || x == last;
    BehindNone(found[..b + 1], last.id);
    BehindAll(found[b + 1..], Some(last.id));
  }

  /** Without a pivot, what is behind the cursor is not what comes after it, nor starts like it. */
  lemma BehindNonPivot<A(!new)>(found: seq<Row<A>>, b: nat)
    requires b < |found| && DistinctIds(found) && !Pivot(found, b)
    ensures var behind := Behind(found, Some(found[b].id));
            || (exists x :: x in found[b + 1..] && x !in behind)
            || (behind != [] && behind[0] !in found[b + 1..])
  {
    hide Behind, DistinctIds, Pivot;
    var last, after := found[b], found[b + 1..];
    var behind := Behind(found, Some(last.id));
    if forall x :: x in after ==> x in behind {
      var i := LargerBefore(found, b);
      BehindStartsBefore(found, b, i);
    }
  }

  lemma LargerBefore<A(!new)>(found: seq<Row<A>>, b: nat) returns (i: nat)
    requires b < |found| && DistinctIds(found) && !Pivot(found, b)
    requires forall x :: x in found[b + 1..] ==> found[b].id < x.id
    ensures i < b && found[b].id < found[i].id
  {
    i :| 0 <= i < b && !(found[..b][i].id < found[b].id);
    assert found[i].id != found[b].id;
  }

  lemma BehindStartsBefore<A(!new)>(found: seq<Row<A>>, b: nat, i: nat)
    requires i < b < |found| && DistinctIds(found) && found[b].id < found[i].id
    ensures var behind := Behind(found, Some(found[b].id)); behind != [] && behind[0] !in found[b + 1..]
  {
    hide Behind, DistinctIds;
    var first := FirstBehind(found, b, i);
    FrontNotAfter(found, b + 1, first);
  }

  lemma FirstBehind<A(!new)>(found: seq<Row<A>>, b: nat, i: nat) returns (first: Row<A>)
    requires i < b < |found| && found[b].id < found[i].id
    ensures first in found[..b + 1]
    ensures var behind := Behind(found, Some(found[b].id)); behind != [] && behind[0] == first
  {
    hide Behind;
    var front := Behind(found[..b + 1], Some(found[b].id));
    assert found[..b + 1][i] == found[i];
    assert found[i] in front;
    first := front[0];
    assert first in front;
    BehindSplit(found, b + 1, Some(found[b].id));
  }

  lemma BehindSplit<A(!new)>(rows: seq<Row<A>>, n: nat, cursor: Option<nat>)
    requires n <= |rows|
    ensures Behind(rows, cursor) == Behind(rows[..n], cursor) + Behind(rows[n..], cursor)
  {
    assert rows == rows[..n] + rows[n..];
    BehindConcat(rows[..n], rows[n..], cursor);
  }

  lemma FrontNotAfter<A(!new)>(found: seq<Row<A>>, n: nat, x: Row<A>)
    requires n <= |found| && DistinctIds(found) && x in found[..n]
    ensures x !in found[n..]
  {
    var k :| 0 <= k < n && found[..n][k] == x;
    assert found[k] == x;
    forall j | 0 <= j < |found[n..]| ensures found[n..][j] != x {
      assert found[n..][j] == found[n + j] && found[k].id != found[n + j].id;
    }
  }

  /** One page of the walk, in terms of the rows behind its cursor. */
  lemma PagesStep<A(!new)>(rows: seq<Row<A>>, cursor: Option<nat>, limit: nat)
    requires limit > 0
    ensures var found := Behind(rows, cursor);
            if |found| <= limit then Pages(rows, cursor, limit) == [found]
            else
              var next := Some(found[limit - 1].id);
              && Pages(rows, cursor, limit) == [found[..limit]] + Pages(rows, next, limit)
              && Behind(rows, next) == Behind(found, next)
              && |Behind(rows, next)| < |found|
  {
    if PageOf(rows, cursor, limit).next.Some? {
      BehindShrinks(rows, cursor, limit);
      BehindTwice(rows, cursor, PageOf(rows, cursor, limit).next.value);
    }
  }

  /** The rows of the walk are rows behind its cursor, the first one first. */
  lemma {:induction false} PagesBehind<A(!new)>(rows: seq<Row<A>>, cursor: Option<nat>, limit: nat)
    requires limit > 0
    ensures var all, behind := Flatten(Pages(rows, cursor, limit)), Behind(rows, cursor);
            && (forall x :: x in all ==> x in behind)
            && (behind != [] ==> all != [] && all[0] == behind[0])
    decreases |Behind(rows, cursor)|
  {
    hide Pages, Behind;
    PagesStep(rows, cursor, limit);
    var found := Behind(rows, cursor);
    if |found| <= limit {
      FlattenOne(found);
    } else {
      var next := Some(found[limit - 1].id);
      PagesBehind(rows, next, limit);
      FlattenCons(found[..limit], Pages(rows, next, limit));
    }
  }

  lemma FlattenCons<T>(first: seq<T>, others: seq<seq<T>>)
    ensures Flatten([first] + others) == first + Flatten(others)
  {
    assert ([first] + others)[1..] == others;
  }

  lemma {:induction false} PagesExact<A(!new)>(rows: seq<Row<A>>, cursor: Option<nat>, limit: nat)
    requires limit > 0 && DistinctIds(Behind(rows, cursor))
    ensures Flatten(Pages(rows, cursor, limit)) == Behind(rows, cursor)
       <==> PivotsAtBoundaries(Behind(rows, cursor), limit)
    decreases |Behind(rows, cursor)|
  {
    hide Pages, Behind, DistinctIds, Pivot;
    PagesStep(rows, cursor, limit);
    var found := Behind(rows, cursor);
    if |found| <= limit {
      FlattenOne(found);
    } else {
      var next := Some(found[limit - 1].id);
      var later := Pages(rows, next, limit);
      FlattenCons(found[..limit], later);
      assert found == found[..limit] + found[limit..];
      SameTail(found[..limit], Flatten(later), found[limit..]);
      if Pivot(found, limit - 1) {
        BehindPivot(found, limit - 1);
        DistinctTail(found, limit);
        PagesExact(rows, next, limit);
      } else {
        BehindNonPivot(found, limit - 1);
        PagesBehind(rows, next, limit);
      }
    }
  }

  lemma DistinctTail<A(!new)>(rows: seq<Row<A>>, n: nat)
    requires n <= |rows| && DistinctIds(rows)
    ensures DistinctIds(rows[n..])
  {
  }

  /**
   Following the cursor over an unchanging listing returns the listing, in order and complete, if
   and only if the last row of every page but the last separates by id what is before it from what
   is after it. For every order of the listing.
   */
  lemma StaticWalkExact<A(!new)>(rows: seq<Row<A>>, limit: nat)
    requires limit > 0 && DistinctIds(rows)
    ensures Flatten(Pages(rows, None, limit)) == rows <==> PivotsAtBoundaries(rows, limit)
  {
    BehindAll(rows, None);
    PagesExact(rows, None, limit);
  }

  lemma {:induction false} AscendingPivots<A(!new)>(rows: seq<Row<A>>, limit: nat)
    requires limit > 0 && Ascending(rows)
    ensures DistinctIds(rows) && PivotsAtBoundaries(rows, limit)
    decreases |rows|
  {
    if |rows| > limit {
      AscendingPivots(rows[limit..], limit);
    }
  }

  /** ceil(n / limit), at least one. */
  function PageCount(n: nat, limit: nat): nat
    requires limit > 0
    decreases n
  {
    if n <= limit then 1 else 1 + PageCount(n - limit, limit)
  }

  lemma {:induction false} PageCountIsCeiling(n: nat, limit: nat)
    requires limit > 0
    ensures n == 0 ==> PageCount(n, limit) == 1
    ensures n > 0 ==> (PageCount(n, limit) - 1) * limit < n <= PageCount(n, limit) * limit
    decreases n
  {
    if n > limit {
      PageCountIsCeiling(n - limit, limit);
    }
  }

  lemma {:induction false} PagesCounted<A(!new)>(rows: seq<Row<A>>, cursor: Option<nat>, limit: nat)
    requires limit > 0 && PivotsAtBoundaries(Behind(rows, cursor), limit)
    ensures |Pages(rows, cursor, limit)| == PageCount(|Behind(rows, cursor)|, limit)
    decreases |Behind(rows, cursor)|
  {
    hide Pages, Behind, Pivot;
    PagesStep(rows, cursor, limit);
    var found := Behind(rows, cursor);
    if |found| > limit {
      BehindPivot(found, limit - 1);
      PagesCounted(rows, Some(found[limit - 1].id), limit);
    }
  }

  /** Devices are listed by id, so paging an unchanging table lists it, in the least number of pages. */
  lemma DevicePaging(org: nat, input: ListInput, table: seq<Row<Device>>)
    requires input.limit > 0 && Ascending(table)
    ensures var matching, pages := Matching(org, input, table), Pages(Matching(org, input, table), None, input.limit);
            Flatten(pages) == matching && |pages| == PageCount(|matching|, input.limit)
  {
    var matching := Matching(org, input, table);
    MatchingAscending(org, input, table);
    AscendingPivots(matching, input.limit);
    StaticWalkExact(matching, input.limit);
    BehindAll(matching, None);
    PagesCounted(matching, None, input.limit);
  }

  lemma {:induction false} MatchingAscending(org: nat, input: ListInput, table: seq<Row<Device>>)
    requires Ascending(table)
    ensures Ascending(Matching(org, input, table))
    ensures forall x :: x in Matching(org, input, table) ==> x in table
  {
    if table != [] {
      MatchingAscending(org, input, table[1..]);
      var rest := Matching(org, input, table[1..]);
      forall j | 0 <= j < |rest| ensures table[0].id < rest[j].id {
        assert rest[j] in table[1..];
      }
    }
  }

  /** What each request of a device walk finds to list. */
  function Listings(org: nat, input: ListInput, tables: seq<seq<Row<Device>>>): (r: seq<seq<Row<Device>>>)
    ensures |r| == |tables| && forall i :: 0 <= i < |tables| ==> r[i] == Matching(org, input, tables[i])
  {
    if tables == [] then [] else [Matching(org, input, tables[0])] + Listings(org, input, tables[1..])
  }

  /**
   A walk through the devices while the table changes: ids strictly ascend, every item matched when
   its page was fetched, and a walk that ends has shown every device that matched throughout.
   */
  lemma DeviceWalkUnderChange(org: nat, input: ListInput, tables: seq<seq<Row<Device>>>)
    requires input.limit > 0 && forall i :: 0 <= i < |tables| ==> Ascending(tables[i])
    ensures var w := Follow(Listings(org, input, tables), None, input.limit);
            && Ascending(Flatten(w.pages))
            && (forall i, x :: 0 <= i < |w.pages| && x in w.pages[i] ==> x in Matching(org, input, tables[i]))
            && (w.ended ==> forall id ::
                  InAll(id, Listings(org, input, tables)[..|w.pages|]) ==> HasId(Flatten(w.pages), id))
  {
    hide Matching;
    forall i | 0 <= i < |tables| ensures Ascending(Matching(org, input, tables[i])) {
      MatchingAscending(org, input, tables[i]);
    }
    WalkUnderChange(Listings(org, input, tables), None, input.limit);
  }

  /** Snapshots are listed by time: that works when ids happen to run against it. */
  lemma SnapshotPaging(rows: seq<Row<Snapshot>>, limit: nat)
    requires limit > 0
    requires forall i, j :: 0 <= i < j < |rows| ==> rows[i].attrs.takenAt > rows[j].attrs.takenAt
    requires forall x, y :: x in rows && y in rows ==> (x.attrs.takenAt > y.attrs.takenAt <==> x.id < y.id)
    ensures Flatten(Pages(rows, None, limit)) == rows
  {
    forall i, j | 0 <= i < j < |rows| ensures rows[i].id < rows[j].id {
      assert rows[i] in rows && rows[j] in rows;
    }
    AscendingPivots(rows, limit);
    StaticWalkExact(rows, limit);
  }

  /**
   What the cursor steps over is gone: a row that comes after the first page but whose id is not
   above the cursor is never shown, on any page.
   */
  lemma SteppedOver<A(!new)>(rows: seq<Row<A>>, limit: nat, x: Row<A>)
    requires 0 < limit < |rows| && x !in rows[..limit] && x.id <= rows[limit - 1].id
    ensures x !in Flatten(Pages(rows, None, limit))
  {
    hide Pages, Behind;
    PagesStep(rows, None, limit);
    BehindAll(rows, None);
    var next := Some(rows[limit - 1].id);
    PagesBehind(rows, next, limit);
    FlattenCons(rows[..limit], Pages(rows, next, limit));
  }

  /** And in general it does not: three snapshots, one to a page, and the middle one never shown. */
  lemma SnapshotSkipped(a: Snapshot, b: Snapshot, c: Snapshot)
    ensures Row(1, b) !in Flatten(Pages([Row(2, a), Row(1, b), Row(3, c)], None, 1))
  {
    hide Pages, Behind;
    SteppedOver([Row(2, a), Row(1, b), Row(3, c)], 1, Row(1, b));
  }
}
