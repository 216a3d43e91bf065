/**
 Cursors over a query: ids are resolved first and their rows fetched chunk by chunk, and a row cursor
 is given its artwork batch by batch. The consumer may stop at any row.
 */
module CursorStream {
  import opened Common

  const BATCH := 200
  const CHUNK := BATCH * 3

  datatype Item = Item(id: string, sortKey: int, body: string, image: Option<string>)

  /** What a cursor yields: a row, or the error that ends it. */
  datatype Out = Row(item: Item) | Failure

  // ----- queries

  /** A total order of the given rows, such as an ORDER BY with the id as its last tie-breaker. */
  ghost predicate TotalOrder(rows: set<Item>, less: (Item, Item) -> bool) {
    && (forall a, b :: a in rows && b in rows && less(a, b) ==> !less(b, a))
    && (forall a, b :: a in rows && b in rows && a != b ==> less(a, b) || less(b, a))
    && (forall a, b, c :: a in rows && b in rows && c in rows && less(a, b) && less(b, c) ==> less(a, c))
  }

  /** Sorting by a key and then by id orders the rows of every table in which ids are keys. */
  lemma SortThenIdIsTotal(table: set<Item>, idLess: (string, string) -> bool, less: (Item, Item) -> bool)
    requires IdsAreKeys(table)
    requires forall a, b :: idLess(a, b) ==> !idLess(b, a)
    requires forall a, b :: a != b ==> idLess(a, b) || idLess(b, a)
    requires forall a, b, c :: idLess(a, b) && idLess(b, c) ==> idLess(a, c)
    requires forall a, b :: less(a, b) <==> a.sortKey < b.sortKey || (a.sortKey == b.sortKey && idLess(a.id, b.id))
    ensures TotalOrder(table, less)
  {}

  /** `s` lists exactly the given rows in order. */
  ghost predicate Lists(s: seq<Item>, rows: set<Item>, less: (Item, Item) -> bool) {
    (forall x :: x in s <==> x in rows) && forall i, j :: 0 <= i < j < |s| ==> less(s[i], s[j])
  }

  lemma {:induction false} ListingUnique(a: seq<Item>, b: seq<Item>, rows: set<Item>, less: (Item, Item) -> bool)
    requires TotalOrder(rows, less) && Lists(a, rows, less) && Lists(b, rows, less)
    ensures a == b
    decreases |rows|
  {
    if rows == {} {
      EmptyListing(a, rows, less);
      EmptyListing(b, rows, less);
    } else {
      FirstIsLeast(a, rows, less);
      FirstIsLeast(b, rows, less);
      assert a[0] in b && b[0] in a;
      assert a[0] == b[0];
      RestLists(a, rows, less);
      RestLists(b, rows, less);
      ListingUnique(a[1..], b[1..], rows - {a[0]}, less);
      assert a == [a[0]] + a[1..] && b == [b[0]] + b[1..];
    }
  }

  lemma EmptyListing(a: seq<Item>, rows: set<Item>, less: (Item, Item) -> bool)
    requires Lists(a, rows, less)
    ensures a != [] ==> rows != {}
  {
    if a != [] { assert a[0] in rows; }
  }

  lemma FirstIsLeast(a: seq<Item>, rows: set<Item>, less: (Item, Item) -> bool)
    requires Lists(a, rows, less) && rows != {}
    ensures a != [] && forall x :: x in rows && x != a[0] ==> less(a[0], x)
  {
    var x :| x in rows;
    assert x in a;
  }

  lemma RestLists(a: seq<Item>, rows: set<Item>, less: (Item, Item) -> bool)
    requires TotalOrder(rows, less) && Lists(a, rows, less) && a != []
    ensures Lists(a[1..], rows - {a[0]}, less)
  {
    assert a[0] !in a[1..];
    assert forall x :: x in a <==> x == a[0] || x in a[1..];
  }

  /** The rows of the table the base filter and the id list let through. */
  ghost function Matching(table: set<Item>, keep: Item -> bool, ids: seq<string>): set<Item> {
    set r | r in table && keep(r) && r.id in ids
  }

  function Ids(rows: seq<Item>): (r: seq<string>)
    ensures |r| == |rows| && forall i :: 0 <= i < |rows| ==> r[i] == rows[i].id
  {
    seq(|rows|, i requires 0 <= i < |rows| => rows[i].id)
  }

  ghost predicate IdsAreKeys(table: set<Item>) {
    forall a, b :: a in table && b in table && a.id == b.id ==> a == b
  }

  /** `fetch` runs the query narrowed to a chunk of ids, in the query's own order. */
  ghost predicate Fetches(fetch: seq<string> -> Result<seq<Item>, string>, table: set<Item>, keep: Item -> bool,
                          less: (Item, Item) -> bool) {
    forall ids :: fetch(ids).Ok? ==> Lists(fetch(ids).value, Matching(table, keep, ids), less)
  }

  /** Some rows of the query in its order: the whole listing, or any slice of it. */
  ghost predicate IsPage(page: seq<Item>, table: set<Item>, keep: Item -> bool, less: (Item, Item) -> bool) {
    && (forall r :: r in page ==> r in table && keep(r))
    && (forall i, j :: 0 <= i < j < |page| ==> less(page[i], page[j]))
  }

  /** A page is exactly what its ids fetch. */
  lemma PageIsFetched(page: seq<Item>, table: set<Item>, keep: Item -> bool, less: (Item, Item) -> bool,
                      fetch: seq<string> -> Result<seq<Item>, string>)
    requires TotalOrder(table, less) && IdsAreKeys(table) && Fetches(fetch, table, keep, less)
    requires IsPage(page, table, keep, less) && fetch(Ids(page)).Ok?
    ensures fetch(Ids(page)) == Ok(page)
  {
    var rows := Matching(table, keep, Ids(page));
    forall x ensures x in page <==> x in rows {
      if x in page {
        var i :| 0 <= i < |page| && page[i] == x;
        assert Ids(page)[i] in Ids(page);
      }
      if x in rows {
        var i :| 0 <= i < |page| && Ids(page)[i] == x.id;
        assert page[i] in page;
      }
    }
    ListingUnique(fetch(Ids(page)).value, page, rows, less);
  }

  function Rows(items: seq<Item>): (r: seq<Out>)
    ensures |r| == |items| && forall i :: 0 <= i < |items| ==> r[i] == Row(items[i])
  {
    seq(|items|, i requires 0 <= i < |items| => Row(items[i]))
  }

  /** What a stream would yield to a consumer that never stops. */
  function Streamed(chunks: seq<seq<string>>, fetch: seq<string> -> Result<seq<Item>, string>): seq<Out> {
    if chunks == [] then []
    else
      match fetch(chunks[0])
      case Err(_) => [Failure]
      case Ok(rows) => Rows(rows) + Streamed(chunks[1..], fetch)
  }

  lemma PageParts(page: seq<Item>, n: nat, table: set<Item>, keep: Item -> bool, less: (Item, Item) -> bool)
    requires n <= |page| && IsPage(page, table, keep, less)
    ensures IsPage(page[..n], table, keep, less) && IsPage(page[n..], table, keep, less)
  {}

  lemma StreamedStep(first: seq<string>, rest: seq<seq<string>>, rows: seq<Item>,
                     fetch: seq<string> -> Result<seq<Item>, string>)
    requires fetch(first) == Ok(rows)
    ensures Streamed([first] + rest, fetch) == Rows(rows) + Streamed(rest, fetch)
  {
    assert ([first] + rest)[1..] == rest;
  }

  /**
   On a fixed table with a total order, the chunked stream of a page's ids is the page itself, row by row,
   whatever slice of the query the page is.
   */
  lemma {:induction false} ChunkedIsUnchunked(page: seq<Item>, table: set<Item>, keep: Item -> bool,
                                              less: (Item, Item) -> bool,
                                              fetch: seq<string> -> Result<seq<Item>, string>)
    requires TotalOrder(table, less) && IdsAreKeys(table) && Fetches(fetch, table, keep, less)
    requires IsPage(page, table, keep, less) && forall ids :: fetch(ids).Ok?
    ensures Streamed(Chunks(Ids(page), CHUNK), fetch) == Rows(page)
    decreases |page|
  {
    hide TotalOrder;
    hide IdsAreKeys;
    hide Fetches;
    hide IsPage;
    hide Rows;
    if page != [] {
      var n := Min(CHUNK, |page|);
      var part, rest := page[..n], page[n..];
      PageParts(page, n, table, keep, less);
      IdsSplit(page, n);
      ChunksStep(Ids(page));
      PageIsFetched(part, table, keep, less, fetch);
      ChunkedIsUnchunked(rest, table, keep, less, fetch);
      StreamedStep(Ids(part), Chunks(Ids(rest), CHUNK), part, fetch);
      RowsSplit(page, n);
    } else {
      ConsRows(page);
    }
  }

  lemma RowsSplit(items: seq<Item>, n: nat)
    requires n <= |items|
    ensures Rows(items[..n]) + Rows(items[n..]) == Rows(items)
  {}

  lemma IdsSplit(items: seq<Item>, n: nat)
    requires n <= |items|
    ensures Ids(items)[..n] == Ids(items[..n]) && Ids(items)[n..] == Ids(items[n..])
  {}

  lemma ChunksStep(ids: seq<string>)
    requires ids != []
    ensures var n := Min(CHUNK, |ids|); Chunks(ids, CHUNK) == [ids[..n]] + Chunks(ids[n..], CHUNK)
  {
    if |ids| <= CHUNK {
      assert ids[..|ids|] == ids && ids[|ids|..] == [];
    }
  }

  /** A chunk that cannot be fetched ends the stream with the error, after the rows of the chunks before it. */
  lemma {:induction false} FailedChunkEnds(good: seq<seq<string>>, bad: seq<string>, rest: seq<seq<string>>,
                                           fetch: seq<string> -> Result<seq<Item>, string>)
    requires (forall c :: c in good ==> fetch(c).Ok?) && fetch(bad).Err?
    ensures Streamed(good + [bad] + rest, fetch) == Streamed(good, fetch) + [Failure]
  {
    var all := good + [bad] + rest;
    if good == [] {
      assert all[0] == bad;
    } else {
      assert all[0] == good[0] && all[1..] == good[1..] + [bad] + rest;
      FailedChunkEnds(good[1..], bad, rest, fetch);
    }
  }

  // ----- query options

  /** The options of a query; a limit or offset that is not positive is none. */
  datatype Query = Query(sort: string, order: string, filter: Option<Item -> bool>, max: int, offset: int)

  const DEFAULTS := Query("", "", None, 0, 0)

  function First(options: seq<Query>): Query { if options == [] then DEFAULTS else options[0] }

  /** The options narrowed to a chunk of ids: same sorting and filter, no limit and no offset. */
  function ChunkOptions(options: seq<Query>, ids: seq<string>): Query {
    var base := if options == [] then DEFAULTS else Query(options[0].sort, options[0].order, options[0].filter, 0, 0);
    base.(filter := Some((item: Item) => (base.filter.Some? ==> base.filter.value(item)) && item.id in ids))
  }

  predicate Accepts(q: Query, item: Item) { q.filter.Some? ==> q.filter.value(item) }

  ghost function Accepted(q: Query, table: set<Item>): set<Item> { set r | r in table && Accepts(q, r) }

  function Window(s: seq<Item>, max: int, offset: int): seq<Item> {
    var from := Min(Max(offset, 0), |s|);
    s[from..if max > 0 then Min(from + max, |s|) else |s|]
  }

  /** A positive offset skips that many rows and a positive limit stops after that many. */
  lemma WindowMeans(s: seq<Item>, max: int, offset: int)
    ensures var skip := if offset <= 0 then 0 else if offset > |s| then |s| else offset;
            var w := Window(s, max, offset);
            && (|w| == if max > 0 && max < |s| - skip then max else |s| - skip)
            && forall i :: 0 <= i < |w| ==> w[i] == s[skip + i]
  {}

  /** `s` is the answer to the query; `ordering` is how each sort and order compares two rows. */
  ghost predicate Answers(q: Query, table: set<Item>, ordering: (string, string) -> ((Item, Item) -> bool),
                          s: seq<Item>) {
    exists full :: Lists(full, Accepted(q, table), ordering(q.sort, q.order))
                   && s == Window(full, q.max, q.offset)
  }

  /** The answers to the narrowed options are the base query narrowed to the chunk, in its order. */
  lemma NarrowedFetches(options: seq<Query>, table: set<Item>, ordering: (string, string) -> ((Item, Item) -> bool),
                        fetch: seq<string> -> Result<seq<Item>, string>)
    requires forall ids :: fetch(ids).Ok? ==> Answers(ChunkOptions(options, ids), table, ordering, fetch(ids).value)
    ensures var q := First(options);
            Fetches(fetch, table, item => Accepts(q, item), ordering(q.sort, q.order))
  {
    var q := First(options);
    var keep := (item: Item) => Accepts(q, item);
    forall ids | fetch(ids).Ok?
      ensures Lists(fetch(ids).value, Matching(table, keep, ids), ordering(q.sort, q.order))
    {
      var c := ChunkOptions(options, ids);
      var full :| Lists(full, Accepted(c, table), ordering(c.sort, c.order))
                  && fetch(ids).value == Window(full, c.max, c.offset);
      assert Accepted(c, table) == Matching(table, keep, ids);
      assert full[0..|full|] == full;
    }
  }

  lemma AnswerIsPage(q: Query, table: set<Item>, ordering: (string, string) -> ((Item, Item) -> bool), page: seq<Item>)
    requires Answers(q, table, ordering, page)
    ensures IsPage(page, table, item => Accepts(q, item), ordering(q.sort, q.order))
  {
    var full :| Lists(full, Accepted(q, table), ordering(q.sort, q.order))
                && page == Window(full, q.max, q.offset);
    forall r | r in page ensures r in table && Accepts(q, r) {
      assert r in full;
    }
  }

  /**
   For all query options, paged or not: resolving the ids first and streaming their rows through the narrowed
   options yields exactly the query's own answer, row by row.
   */
  lemma CursorIsQuery(options: seq<Query>, table: set<Item>, ordering: (string, string) -> ((Item, Item) -> bool),
                      page: seq<Item>, fetch: seq<string> -> Result<seq<Item>, string>)
    requires IdsAreKeys(table) && TotalOrder(table, ordering(First(options).sort, First(options).order))
    requires Answers(First(options), table, ordering, page)
    requires forall ids :: fetch(ids).Ok? && Answers(ChunkOptions(options, ids), table, ordering, fetch(ids).value)
    ensures Streamed(Chunks(Ids(page), CHUNK), fetch) == Rows(page)
  {
    var q := First(options);
    NarrowedFetches(options, table, ordering, fetch);
    AnswerIsPage(q, table, ordering, page);
    ChunkedIsUnchunked(page, table, item => Accepts(q, item), ordering(q.sort, q.order), fetch);
  }

  // ----- the consumer

  /** The outputs a consumer takes before it stops, given what it has seen. */
  function Taken(outs: seq<Out>, seen: seq<Out>, more: seq<Out> -> bool): seq<Out> {
    if outs == [] then []
    else [outs[0]] + if more(seen + [outs[0]]) then Taken(outs[1..], seen + [outs[0]], more) else []
  }

  /** A consumer takes the outputs in order, up to and including the first after which it wants no more. */
  lemma {:induction false} TakenMeans(outs: seq<Out>, seen: seq<Out>, more: seq<Out> -> bool) returns (k: nat)
    ensures k <= |outs| && Taken(outs, seen, more) == outs[..k]
    ensures forall i :: 0 < i < k ==> more(seen + outs[..i])
    ensures k < |outs| ==> k > 0 && !more(seen + outs[..k])
    decreases |outs|
  {
    k := 0;
    if outs != [] {
      var s := seen + [outs[0]];
      k := 1;
      assert outs[..1] == [outs[0]];
      if more(s) {
        var j := TakenMeans(outs[1..], s, more);
        k := j + 1;
        assert outs[..k] == [outs[0]] + outs[1..][..j];
        forall i | 0 < i < k ensures more(seen + outs[..i]) {
          if i > 1 { assert seen + outs[..i] == s + outs[1..][..i - 1]; }
        }
        assert j > 0 ==> seen + outs[..k] == s + outs[1..][..j];
      }
    }
  }

  lemma TakenStep(outs: seq<Out>, seen: seq<Out>, more: seq<Out> -> bool)
    requires outs != []
    ensures var s := seen + [outs[0]];
            seen + Taken(outs, seen, more) == if more(s) then s + Taken(outs[1..], s, more) else s
  {}

  /** The receiving end of a range loop. Yielding to one that has stopped is ruled out by its contract. */
  class Consumer {
    const more: seq<Out> -> bool
    var seen: seq<Out>
    var stopped: bool

    constructor (more: seq<Out> -> bool)
      ensures this.more == more && seen == [] && !stopped
    {
      this.more := more;
      seen, stopped := [], false;
    }

    method Yield(x: Out) returns (go: bool)
      requires !stopped
      modifies this
      ensures seen == old(seen) + [x] && go == more(seen) && stopped == !go
    {
      seen := seen + [x];
      go := more(seen);
      stopped := !go;
    }
  }

  /** Yields the rows of chunk after chunk until the ids run out, a fetch fails, or the consumer stops. */
  method StreamByIds(ids: seq<string>, fetch: seq<string> -> Result<seq<Item>, string>, c: Consumer)
    requires !c.stopped
    modifies c
    ensures c.seen == old(c.seen) + Taken(Streamed(Chunks(ids, CHUNK), fetch), old(c.seen), c.more)
  {
    hide Rows;
    var chunks := Chunks(ids, CHUNK);
    ghost var want := c.seen + Taken(Streamed(chunks, fetch), c.seen, c.more);
    for i := 0 to |chunks|
      invariant !c.stopped && want == c.seen + Taken(Streamed(chunks[i..], fetch), c.seen, c.more)
    {
      assert chunks[i..][1..] == chunks[i + 1..];
      var got := fetch(chunks[i]);
      match got {
        case Err(_) =>
          var _ := c.Yield(Failure);
          return;
        case Ok(rows) =>
          ghost var after := Streamed(chunks[i + 1..], fetch);
          var go := YieldRows(rows, after, c);
          if !go { return; }
      }
    }
  }

  /** Yields the rows one by one; `after` is what would follow them. */
  method YieldRows(rows: seq<Item>, ghost after: seq<Out>, c: Consumer) returns (go: bool)
    requires !c.stopped
    modifies c
    ensures go == !c.stopped
    ensures old(c.seen) + Taken(Rows(rows) + after, old(c.seen), c.more) ==
            if go then c.seen + Taken(after, c.seen, c.more) else c.seen
  {
    hide Taken;
    ghost var all := Rows(rows) + after;
    ghost var want := c.seen + Taken(all, c.seen, c.more);
    assert all[0..] == all;
    for i := 0 to |rows|
      invariant !c.stopped && want == c.seen + Taken(all[i..], c.seen, c.more)
    {
      assert all[i] == Row(rows[i]) && all[i..][1..] == all[i + 1..];
      TakenStep(all[i..], c.seen, c.more);
      go := c.Yield(Row(rows[i]));
      if !go { return; }
    }
    assert all[|rows|..] == after;
    return true;
  }

  // ----- artwork

  /** The artwork a row is shown with, if the store knows any. */
  function Hydrated(store: map<string, string>, item: Item): Item {
    if item.id in store then item.(image := Some(store[item.id])) else item
  }

  function HydratedAll(store: map<string, string>, items: seq<Item>): (r: seq<Item>)
    ensures |r| == |items| && forall i :: 0 <= i < |items| ==> r[i] == Hydrated(store, items[i])
  {
    seq(|items|, i requires 0 <= i < |items| => Hydrated(store, items[i]))
  }

  /** One lookup for all the rows' ids, then each row from the answer. */
  method HydrateItems(store: map<string, string>, items: seq<Item>) returns (r: seq<Item>)
    ensures r == HydratedAll(store, items)
    ensures forall i :: 0 <= i < |items| ==>
              r[i] == if items[i].id in store then items[i].(image := Some(store[items[i].id])) else items[i]
  {
    var ids := Ids(items);
    var infos := map id | id in store && id in ids :: store[id];
    r := [];
    for i := 0 to |items|
      invariant r == HydratedAll(store, items)[..i]
    {
      assert ids[i] in ids;
      var item := if items[i].id in infos then items[i].(image := Some(infos[items[i].id])) else items[i];
      assert HydratedAll(store, items)[..i + 1] == HydratedAll(store, items)[..i] + [item];
      r := r + [item];
    }
    assert HydratedAll(store, items)[..|items|] == HydratedAll(store, items);
  }

  /**
   What a hydrated cursor yields: every row with its artwork. An error in the input comes out in the
   place of the rows of the batch it interrupts.
   */
  function Buffered(store: map<string, string>, input: seq<Out>, buf: seq<Item>): seq<Out> {
    if input == [] then Rows(HydratedAll(store, buf))
    else if input[0].Failure? then [Failure]
    else
      var b := buf + [input[0].item];
      if |b| == BATCH then Rows(HydratedAll(store, b)) + Buffered(store, input[1..], [])
      else Buffered(store, input[1..], b)
  }

  function Shown(store: map<string, string>, items: seq<Item>): seq<Out> {
    Rows(HydratedAll(store, items))
  }

  lemma ShownAppend(store: map<string, string>, a: seq<Item>, b: seq<Item>)
    ensures Shown(store, a + b) == Shown(store, a) + Shown(store, b)
  {
    assert HydratedAll(store, a + b) == HydratedAll(store, a) + HydratedAll(store, b);
  }

  lemma BufferedStep(store: map<string, string>, item: Item, rest: seq<Out>, buf: seq<Item>)
    ensures var b := buf + [item];
            Buffered(store, [Row(item)] + rest, buf) ==
            if |b| == BATCH then Shown(store, b) + Buffered(store, rest, []) else Buffered(store, rest, b)
  {
    assert ([Row(item)] + rest)[1..] == rest;
  }

  lemma BufferedEnd(store: map<string, string>, after: seq<Out>, buf: seq<Item>)
    ensures Buffered(store, [], buf) == Shown(store, buf)
    ensures Buffered(store, [Failure] + after, buf) == [Failure]
  {}

  lemma ConsRows(items: seq<Item>)
    ensures items == [] ==> Rows(items) == []
    ensures items != [] ==> Rows(items) == [Row(items[0])] + Rows(items[1..])
  {}

  lemma ConsMoves(buf: seq<Item>, items: seq<Item>)
    requires items != []
    ensures buf + [items[0]] + items[1..] == buf + items
  {}

  /** On error-free input, batch by batch is row by row. */
  lemma {:induction false} BatchesArePointwise(store: map<string, string>, items: seq<Item>, buf: seq<Item>)
    ensures Buffered(store, Rows(items), buf) == Shown(store, buf + items)
    decreases |items|
  {
    hide Buffered;
    hide Shown;
    hide Rows;
    ConsRows(items);
    if items == [] {
      BufferedEnd(store, [], buf);
      assert buf + [] == buf;
    } else {
      var b, rest := buf + [items[0]], items[1..];
      BufferedStep(store, items[0], Rows(rest), buf);
      ConsMoves(buf, items);
      if |b| == BATCH {
        BatchesArePointwise(store, rest, []);
        assert [] + rest == rest;
        ShownAppend(store, b, rest);
      } else {
        BatchesArePointwise(store, rest, b);
      }
    }
  }

  function WholeBatches(n: nat): nat { n / BATCH * BATCH }

  function Interrupted(items: seq<Item>, after: seq<Out>): seq<Out> { Rows(items) + ([Failure] + after) }

  lemma ConsInterrupted(items: seq<Item>, after: seq<Out>)
    ensures items == [] ==> Interrupted(items, after) == [Failure] + after
    ensures items != [] ==> Interrupted(items, after) == [Row(items[0])] + Interrupted(items[1..], after)
  {
    ConsRows(items);
  }

  /** The whole batches of a full batch followed by more. */
  lemma BatchFirst(b: seq<Item>, rest: seq<Item>)
    requires |b| == BATCH
    ensures (b + rest)[..WholeBatches(|b + rest|)] == b + rest[..WholeBatches(|rest|)]
  {
    assert WholeBatches(|b + rest|) == BATCH + WholeBatches(|rest|);
  }

  /** An error cuts the output at a batch boundary: the rows of the batch it interrupts are not shown. */
  lemma {:induction false} ErrorDropsPartialBatch(store: map<string, string>, items: seq<Item>, after: seq<Out>,
                                                  buf: seq<Item>)
    requires |buf| < BATCH
    ensures Buffered(store, Interrupted(items, after), buf) ==
            Shown(store, (buf + items)[..WholeBatches(|buf + items|)]) + [Failure]
    decreases |items|
  {
    ConsInterrupted(items, after);
    hide Buffered;
    hide Interrupted;
    if items == [] {
      BufferedEnd(store, after, buf);
      assert (buf + items)[..0] == [];
      ShownAppend(store, [], []);
    } else {
      hide Shown;
      hide WholeBatches;
      var b, rest := buf + [items[0]], items[1..];
      BufferedStep(store, items[0], Interrupted(rest, after), buf);
      ConsMoves(buf, items);
      if |b| == BATCH {
        ErrorDropsPartialBatch(store, rest, after, []);
        assert [] + rest == rest;
        BatchFirst(b, rest);
        ShownAppend(store, b, rest[..WholeBatches(|rest|)]);
      } else {
        ErrorDropsPartialBatch(store, rest, after, b);
      }
    }
  }

  method HydrateCursor(store: map<string, string>, input: seq<Out>, c: Consumer)
    requires !c.stopped
    modifies c
    ensures c.seen == old(c.seen) + Taken(Buffered(store, input, []), old(c.seen), c.more)
  {
    var buf: seq<Item> := [];
    ghost var want := c.seen + Taken(Buffered(store, input, []), c.seen, c.more);
    for i := 0 to |input|
      invariant !c.stopped && want == c.seen + Taken(Buffered(store, input[i..], buf), c.seen, c.more)
    {
      assert input[i..][1..] == input[i + 1..];
      if input[i].Failure? {
        var _ := c.Yield(Failure);
        return;
      }
      buf := buf + [input[i].item];
      if |buf| == BATCH {
        var rows := HydrateItems(store, buf);
        var go := YieldRows(rows, Buffered(store, input[i + 1..], []), c);
        if !go { return; }
        buf := [];
      }
    }
    if |buf| > 0 {
      var rows := HydrateItems(store, buf);
      assert Rows(rows) + [] == Rows(rows);
      var _ := YieldRows(rows, [], c);
    }
  }
}
