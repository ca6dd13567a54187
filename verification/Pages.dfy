/** Listing queries, cursor pages, and traversals that read pages while rows are being added. */
module Pages {
  import opened Values
  import opened Decimals
  import opened Protocol
  import opened Relay
  import opened RelayRuns
  import opened Cursor

  datatype Query = InChannel(id: string) | OnObject(id: string) | Advertised

  // ---------------------------------------------------------------- rows of a query

  /** The WHERE clause; the advertised listing joins on the advertised table. */
  predicate Where(advertised: seq<string>, q: Query, r: Row) {
    match q
    case InChannel(id) => r.rec.channel == Some(id)
    case OnObject(id) => r.rec.hash == Some(id)
    case Advertised => r.rec.id in advertised
  }

  /** The same condition read off the row alone. */
  predicate Matches(q: Query, r: Row) {
    match q
    case InChannel(id) => r.rec.channel == Some(id)
    case OnObject(id) => r.rec.hash == Some(id)
    case Advertised => r.rec.kind == "channel"
  }

  /** SELECT ... WHERE ... AND seq > after ORDER BY seq, on rows kept in seq order. */
  function Fetch(rows: seq<Row>, advertised: seq<string>, q: Query, after: nat): seq<Row> {
    if rows == [] then []
    else
      var init := Fetch(rows[..|rows| - 1], advertised, q, after);
      var r := rows[|rows| - 1];
      if Where(advertised, q, r) && r.seqNo > after then init + [r] else init
  }

  /** The matching rows beyond a sequence number. */
  function Select(rows: seq<Row>, q: Query, after: nat): seq<Row> {
    if rows == [] then []
    else
      var init := Select(rows[..|rows| - 1], q, after);
      var r := rows[|rows| - 1];
      if Matches(q, r) && r.seqNo > after then init + [r] else init
  }

  lemma OkIsCoherent(c: Suite, cfg: Config, db: Db)
    requires Ok(c, cfg, db)
    ensures Coherent(db)
  {
  }

  lemma {:induction false} FetchIsSelect(db: Db, rows: seq<Row>, q: Query, after: nat)
    requires Coherent(db) && rows <= db.rows
    ensures Fetch(rows, db.advertised, q, after) == Select(rows, q, after)
  {
    hide SeqsIncrease, SeqsBelow, ChannelIds;
    if rows != [] {
      FetchIsSelect(db, rows[..|rows| - 1], q, after);
      var k := |rows| - 1;
      ChannelIdsAre(db.rows, rows[k].rec.id);
      assert db.rows[k] == rows[k];
    }
  }

  lemma {:induction false} SelectMeans(rows: seq<Row>, q: Query, after: nat, r: Row)
    ensures r in Select(rows, q, after) <==> r in rows && Matches(q, r) && r.seqNo > after
  {
    hide Matches;
    if rows != [] {
      SelectMeans(rows[..|rows| - 1], q, after, r);
      assert rows == rows[..|rows| - 1] + [rows[|rows| - 1]];
    }
  }

  lemma {:induction false} SelectIncreases(rows: seq<Row>, q: Query, after: nat)
    requires SeqsIncrease(rows)
    ensures SeqsIncrease(Select(rows, q, after))
  {
    hide Matches;
    if rows != [] {
      var init, r := rows[..|rows| - 1], rows[|rows| - 1];
      SelectIncreases(init, q, after);
      var s := Select(init, q, after);
      forall i | 0 <= i < |s| ensures s[i].seqNo < r.seqNo {
        SelectMeans(init, q, after, s[i]);
        var j :| 0 <= j < |init| && init[j] == s[i];
        assert rows[j] == s[i];
      }
    }
  }

  /** Rows added later come after the ones already selected. */
  lemma {:induction false} SelectGrows(rows: seq<Row>, more: seq<Row>, q: Query, after: nat)
    requires rows <= more
    ensures Select(rows, q, after) <= Select(more, q, after)
    decreases |more|
  {
    hide Matches;
    if |rows| < |more| {
      SelectGrows(rows, more[..|more| - 1], q, after);
    } else {
      assert rows == more;
    }
  }

  lemma NoneBeyond(rows: seq<Row>, q: Query, after: nat)
    requires forall i :: 0 <= i < |rows| ==> rows[i].seqNo <= after
    ensures Select(rows, q, after) == []
  {
  }

  /** Continuing beyond the k-th selected row selects the rest. */
  lemma {:induction false} SelectSplit(rows: seq<Row>, q: Query, after: nat, k: nat)
    requires SeqsIncrease(rows) && 0 < k <= |Select(rows, q, after)|
    ensures var s := Select(rows, q, after); s[k - 1].seqNo > after && Select(rows, q, s[k - 1].seqNo) == s[k..]
  {
    hide Matches;
    var init, r := rows[..|rows| - 1], rows[|rows| - 1];
    var s, t := Select(rows, q, after), Select(init, q, after);
    if k <= |t| {
      SelectSplit(init, q, after, k);
      SelectMeans(init, q, after, t[k - 1]);
      assert s[k - 1] == t[k - 1];
      var j :| 0 <= j < |init| && init[j] == t[k - 1];
      assert rows[j] == t[k - 1];
      assert t[k..] + [r] == (t + [r])[k..];
    } else {
      NoneBeyond(init, q, r.seqNo);
      assert s == t + [r] && s[k..] == [];
    }
  }

  // ---------------------------------------------------------------- pages

  datatype Page = Page(items: seq<Row>, next: Option<string>)

  function Limit(rows: seq<Row>, n: nat): seq<Row> { if |rows| <= n then rows else rows[..n] }

  /** _paginate: one row more than a page was fetched to see whether there is another page. */
  function Paginate(rows: seq<Row>, size: Positive): Page {
    var items := Limit(rows, size);
    Page(items, if |rows| > size then Some(EncodeCursor(items[|items| - 1].seqNo)) else None)
  }

  /** A GET of a listing; None is the reply to a malformed cursor. */
  function Get(db: Db, size: Positive, q: Query, cursor: Option<string>): Option<Page> {
    var after := if cursor == None then Some(0) else DecodeCursor(cursor.value);
    match after
    case None => None
    case Some(n) => Some(Paginate(Limit(Fetch(db.rows, db.advertised, q, n), size + 1), size))
  }

  /** A cursor value that stands for a sequence number. */
  predicate StandsFor(cursor: Option<string>, after: nat) {
    match cursor
    case None => after == 0
    case Some(t) => DecodeCursor(t) == Some(after)
  }

  /** A page holds the next rows of the listing, and its cursor stands for the last of them. */
  lemma PageMeans(db: Db, size: Positive, q: Query, cursor: Option<string>, after: nat)
    requires Coherent(db) && StandsFor(cursor, after)
    ensures var rest := Select(db.rows, q, after);
            && Get(db, size, q, cursor).Some?
            && var p := Get(db, size, q, cursor).value;
               && (p.next == None <==> |rest| <= size)
               && (p.next == None ==> p.items == rest)
               && (p.next.Some? ==>
                  p.items == rest[..size] && p.next.value != "" && StandsFor(p.next, rest[size - 1].seqNo))
  {
    hide DecodeCursor, EncodeCursor, Fetch, Select, Coherent;
    FetchIsSelect(db, db.rows, q, after);
    var rest := Select(db.rows, q, after);
    if |rest| > size {
      CursorRoundTrip(rest[size - 1].seqNo);
      assert Limit(rest, size + 1)[..size] == rest[..size];
    }
  }

  // ---------------------------------------------------------------- a traversal among insertions

  /** The table at each request: rows are only ever added between requests. */
  ghost predicate Grows(at: nat -> Db) { forall i: nat :: Coherent(at(i)) && at(i).rows <= at(i + 1).rows }

  ghost predicate Settled(at: nat -> Db, n: nat) { forall i: nat :: i >= n ==> at(i) == at(n) }

  lemma PageStep(now: Db, later: Db, q: Query, after: nat, size: Positive)
    requires Coherent(now) && Coherent(later) && now.rows <= later.rows
    requires |Select(now.rows, q, after)| > size
    ensures var rest := Select(now.rows, q, after);
            var s := rest[size - 1].seqNo;
            && Select(later.rows, q, after) == rest[..size] + Select(later.rows, q, s)
            && |Select(now.rows, q, s)| < |rest|
  {
    hide SeqsBelow, UniqueIds, ChannelIds, Select;
    var rest := Select(now.rows, q, after);
    SelectGrows(now.rows, later.rows, q, after);
    SelectSplit(later.rows, q, after, size);
    SelectSplit(now.rows, q, after, size);
  }

  lemma GrowsTo(at: nat -> Db, i: nat, j: nat)
    requires Grows(at) && i <= j
    ensures at(i).rows <= at(j).rows
    decreases j - i
  {
    hide Coherent;
    if i < j {
      GrowsTo(at, i + 1, j);
      assert at(i).rows <= at(i + 1).rows;
    }
  }

  /** Everything read so far, followed by what lies beyond the cursor, is the whole listing of any later table. */
  ghost predicate SoFar(at: nat -> Db, q: Query, items: seq<Row>, i: nat, after: nat) {
    forall j: nat {:trigger at(j)} :: j >= i ==> Select(at(j).rows, q, 0) == items + Select(at(j).rows, q, after)
  }

  lemma ReadPage(at: nat -> Db, q: Query, items: seq<Row>, i: nat, after: nat, size: Positive)
    requires Grows(at) && SoFar(at, q, items, i, after) && |Select(at(i).rows, q, after)| > size
    ensures var rest := Select(at(i).rows, q, after);
            SoFar(at, q, items + rest[..size], i + 1, rest[size - 1].seqNo)
  {
    hide Coherent, Select;
    var rest := Select(at(i).rows, q, after);
    var s := rest[size - 1].seqNo;
    forall j: nat | j >= i + 1 ensures Select(at(j).rows, q, 0) == (items + rest[..size]) + Select(at(j).rows, q, s) {
      GrowsTo(at, i, j);
      assert Coherent(at(i)) && Coherent(at(j));
      PageStep(at(i), at(j), q, after, size);
      assert Select(at(j).rows, q, 0) == items + Select(at(j).rows, q, after);
      assert items + (rest[..size] + Select(at(j).rows, q, s)) == (items + rest[..size]) + Select(at(j).rows, q, s);
    }
  }

  lemma PartIncreases(part: seq<Row>, rows: seq<Row>)
    requires part <= rows && SeqsIncrease(rows)
    ensures SeqsIncrease(part)
  {
    forall i, j | 0 <= i < j < |part| ensures part[i].seqNo < part[j].seqNo {
      assert part[i] == rows[i] && part[j] == rows[j];
    }
  }

  /** list_channel and list_advertised: follow the cursors until there is none or a request fails. The i-th
      request sees the table at(i), and is answered when up(i). A whole result is exactly the listing of the
      table at the last request; a result cut short is the beginning of it. */
  method ReadPages(at: nat -> Db, up: nat -> bool, first: nat, size: Positive, q: Query, ghost quiet: nat)
    returns (items: seq<Row>, next: nat, whole: bool)
    requires Grows(at) && Settled(at, quiet)
    ensures first < next && SeqsIncrease(items)
    ensures whole ==> items == Select(at(next - 1).rows, q, 0)
    ensures !whole ==> !up(next - 1) && items <= Select(at(next - 1).rows, q, 0)
  {
    hide Coherent, Select, Get, StandsFor, SeqsIncrease;
    items, next := [], first;
    var cursor: Option<string> := None;
    ghost var after := 0;
    StandsForStart();
    assert SoFar(at, q, items, next, after);
    while true
      invariant first <= next && StandsFor(cursor, after) && SoFar(at, q, items, next, after)
      decreases if next < quiet then quiet - next else 0, |Select(at(next).rows, q, after)|
    {
      assert Coherent(at(next));
      ListingIncreases(at(next), q);
      if !up(next) {
        PartIncreases(items, Select(at(next).rows, q, 0));
        return items, next + 1, false;
      }
      PageMeans(at(next), size, q, cursor, after);
      var page := Get(at(next), size, q, cursor).value;
      if page.next == None {
        return items + page.items, next + 1, true;
      }
      ReadPage(at, q, items, next, after, size);
      ghost var rest := Select(at(next).rows, q, after);
      PageStep(at(next), at(next), q, after, size);
      assert next >= quiet ==> at(next) == at(next + 1);
      items, cursor, after, next := items + page.items, page.next, rest[size - 1].seqNo, next + 1;
    }
  }

  /** With every request answered: exactly the rows present when the last page is read. */
  method Traverse(at: nat -> Db, size: Positive, q: Query, ghost quiet: nat) returns (items: seq<Row>, last: nat)
    requires Grows(at) && Settled(at, quiet)
    ensures items == Select(at(last).rows, q, 0) && SeqsIncrease(items)
  {
    hide Grows, Settled, Select, SeqsIncrease;
    var next, whole;
    items, next, whole := ReadPages(at, i => true, 0, size, q, quiet);
    last := next - 1;
  }

  lemma StandsForStart()
    ensures StandsFor(None, 0)
  {
  }

  lemma ListingIncreases(db: Db, q: Query)
    requires Coherent(db)
    ensures SeqsIncrease(Select(db.rows, q, 0))
  {
    SelectIncreases(db.rows, q, 0);
  }

  /** The listing of a coherent table is exactly its matching rows. */
  lemma ListingMeans(db: Db, q: Query, r: Row)
    requires Coherent(db)
    ensures r in Select(db.rows, q, 0) <==> r in db.rows && Matches(q, r)
  {
    hide Matches, ChannelIds;
    SelectMeans(db.rows, q, 0, r);
    if r in db.rows {
      var i :| 0 <= i < |db.rows| && db.rows[i] == r;
    }
  }

  // ---------------------------------------------------------------- the tables of a run

  /** How many submissions have been handled at each request. */
  ghost predicate Schedule(done: nat -> nat, n: nat) {
    (forall i: nat :: done(i) <= n) && forall i: nat, j: nat :: i <= j ==> done(i) <= done(j)
  }

  /** The table each request sees while these submissions are handled. */
  function Tables(c: Suite, cfg: Config, db: Db, bodies: seq<string>, done: nat -> nat): nat -> Db {
    (i: nat) => Run(c, cfg, db, if done(i) <= |bodies| then bodies[..done(i)] else bodies)
  }

  lemma RunStep(c: Suite, cfg: Config, db: Db, bodies: seq<string>, m: nat, n: nat)
    requires Faithful(c.fp) && Ok(c, cfg, db) && m <= n <= |bodies|
    ensures var now, later := Run(c, cfg, db, bodies[..m]), Run(c, cfg, db, bodies[..n]);
            Coherent(now) && Coherent(later) && now.rows <= later.rows
  {
    hide Faithful, Ok, Run, Coherent;
    RunKeeps(c, cfg, db, bodies[..m]);
    var now := Run(c, cfg, db, bodies[..m]);
    RunKeeps(c, cfg, now, bodies[m..n]);
    RunAppend(c, cfg, db, bodies[..m], bodies[m..n]);
    assert bodies[..m] + bodies[m..n] == bodies[..n];
    OkIsCoherent(c, cfg, now);
    OkIsCoherent(c, cfg, Run(c, cfg, now, bodies[m..n]));
  }

  lemma TableAt(c: Suite, cfg: Config, db: Db, bodies: seq<string>, done: nat -> nat, i: nat)
    requires Schedule(done, |bodies|)
    ensures done(i) <= |bodies| && Tables(c, cfg, db, bodies, done)(i) == Run(c, cfg, db, bodies[..done(i)])
  {
    hide Run;
  }

  /** While any run of submissions is handled, in any number between two requests, the tables only grow. */
  lemma RunGrows(c: Suite, cfg: Config, db: Db, bodies: seq<string>, done: nat -> nat, quiet: nat)
    requires Faithful(c.fp) && Ok(c, cfg, db) && Schedule(done, |bodies|)
    ensures Grows(Tables(c, cfg, db, bodies, done))
    ensures (forall i: nat :: i >= quiet ==> done(i) == done(quiet)) ==>
            Settled(Tables(c, cfg, db, bodies, done), quiet)
  {
    hide Faithful, Ok, Run, Coherent, Tables;
    var at := Tables(c, cfg, db, bodies, done);
    forall i: nat ensures Coherent(at(i)) && at(i).rows <= at(i + 1).rows {
      TableAt(c, cfg, db, bodies, done, i);
      TableAt(c, cfg, db, bodies, done, i + 1);
      RunStep(c, cfg, db, bodies, done(i), done(i + 1));
    }
    forall i: nat ensures at(i) == Run(c, cfg, db, bodies[..done(i)]) { TableAt(c, cfg, db, bodies, done, i); }
  }

  /** Reading a listing while a relay handles submissions: exactly the matching rows of the table the run has
      reached at the last request, for any schedule that comes to rest. */
  method ReadDuringRun(c: Suite, cfg: Config, db: Db, bodies: seq<string>, done: nat -> nat, q: Query, ghost quiet: nat)
    returns (items: seq<Row>, last: nat)
    requires Faithful(c.fp) && Ok(c, cfg, db) && Schedule(done, |bodies|)
    requires forall i: nat :: i >= quiet ==> done(i) == done(quiet)
    ensures done(last) <= |bodies|
    ensures items == Select(Run(c, cfg, db, bodies[..done(last)]).rows, q, 0) && SeqsIncrease(items)
  {
    hide Faithful, Ok, Run, Coherent, Grows, Settled, Select, SeqsIncrease, Tables;
    RunGrows(c, cfg, db, bodies, done, quiet);
    items, last := Traverse(Tables(c, cfg, db, bodies, done), cfg.pageSize, q, quiet);
    TableAt(c, cfg, db, bodies, done, last);
  }
}
