/** The sync command between two relays: choose channels, read their listings, submit what was gathered. */
module SyncWorker {
  import opened Values
  import opened Decimals
  import opened Bytes
  import opened Protocol
  import opened Relay
  import opened RelayRuns
  import opened Pages
  import opened Federation
  import opened Convergence

  /** channel_hex_of, with the prefix put back: a full identifier or its 64 hexadecimal digits. */
  function ChannelOf(arg: string): Option<string> {
    if IsSha256Id(arg) then Some(arg) else if |arg| == 64 && IsLowerHex(arg) then Some("sha256:" + arg) else None
  }

  /** The channels to read: the one asked for, or the advertised ones. */
  function Asked(channel: Option<string>, advertised: seq<string>): seq<string>
    requires channel == None || ChannelOf(channel.value).Some?
  {
    if channel == None then advertised else [ChannelOf(channel.value).value]
  }

  lemma ChannelIsId(arg: string)
    ensures ChannelOf(arg).Some? ==> IsSha256Id(ChannelOf(arg).value)
    ensures IsSha256Id(arg) ==> ChannelOf(arg[7..]) == ChannelOf(arg)
  {
    hide IsLowerHexDigit;
    if |arg| == 64 && IsLowerHex(arg) { assert ("sha256:" + arg)[7..] == arg; }
    if IsSha256Id(arg) { assert arg == "sha256:" + arg[7..]; }
  }

  /** Nobody changes the table and every request is answered. */
  ghost predicate Still(at: nat -> Db, up: nat -> bool) { forall i: nat :: at(i) == at(0) && up(i) }

  /** Every matching row that was there at the start is among the gathered ones. */
  ghost predicate Covers(db: Db, channels: seq<string>, rows: seq<Row>) {
    forall r, i :: 0 <= i < |channels| && r in Select(db.rows, InChannel(channels[i]), 0) ==> r in rows
  }

  lemma MoreSourced(now: Db, later: Db, channels: seq<string>, advertised: bool, rows: seq<Row>, cid: string)
    requires now.rows <= later.rows && Sourced(now, channels, advertised, rows)
    ensures Sourced(later, channels + [cid], advertised, rows)
  {
    forall i | 0 <= i < |rows| ensures rows[i] in later.rows && AskedFor(channels + [cid], advertised, rows[i]) {
      var j :| 0 <= j < |now.rows| && now.rows[j] == rows[i];
      assert later.rows[j] == rows[i];
      assert AskedFor(channels, advertised, rows[i]);
    }
  }

  lemma ListedSourced(now: Db, later: Db, channels: seq<string>, advertised: bool, rows: seq<Row>, cid: string)
    requires Coherent(now) && now.rows <= later.rows && rows <= Select(now.rows, InChannel(cid), 0) && cid in channels
    ensures Sourced(later, channels, advertised, rows)
  {
    hide Select, ChannelIds;
    forall i | 0 <= i < |rows| ensures rows[i] in later.rows && AskedFor(channels, advertised, rows[i]) {
      assert rows[i] == Select(now.rows, InChannel(cid), 0)[i];
      ListingMeans(now, InChannel(cid), rows[i]);
      var j :| 0 <= j < |now.rows| && now.rows[j] == rows[i];
      assert later.rows[j] == rows[i];
    }
  }

  lemma SourcedJoin(db: Db, channels: seq<string>, advertised: bool, a: seq<Row>, b: seq<Row>)
    requires Sourced(db, channels, advertised, a) && Sourced(db, channels, advertised, b)
    ensures Sourced(db, channels, advertised, a + b)
  {
    hide AskedFor;
  }

  lemma CoversNext(start: Db, now: Db, channels: seq<string>, cid: string, rows: seq<Row>, items: seq<Row>,
      more: seq<Row>)
    requires start.rows <= now.rows && Covers(start, channels, rows) && items == Select(now.rows, InChannel(cid), 0)
    ensures Covers(start, channels + [cid], rows + items + more)
  {
    hide Select;
    SelectGrows(start.rows, now.rows, InChannel(cid), 0);
    var all := channels + [cid];
    forall r, i | 0 <= i < |all| && r in Select(start.rows, InChannel(all[i]), 0) ensures r in rows + items + more {
      if i < |channels| { assert all[i] == channels[i]; }
    }
  }

  /** The channel assertion itself, when the request is answered and there is one. */
  method ReadOne(at: nat -> Db, up: nat -> bool, i: nat, cid: string) returns (rows: seq<Row>)
    ensures rows == if up(i) && FindRow(at(i).rows, cid).Some? then [FindRow(at(i).rows, cid).value] else []
    ensures Sourced(at(i), [cid], true, rows)
  {
    FindRowMeans(at(i).rows, cid);
    if up(i) {
      var one := FindRow(at(i).rows, cid);
      if one.Some? { return [one.value]; }
    }
    return [];
  }

  lemma OneSourced(now: Db, later: Db, channels: seq<string>, cid: string, rows: seq<Row>)
    requires now.rows <= later.rows && Sourced(now, [cid], true, rows) && cid in channels
    ensures Sourced(later, channels, true, rows)
  {
    forall i | 0 <= i < |rows| ensures rows[i] in later.rows && AskedFor(channels, true, rows[i]) {
      var j :| 0 <= j < |now.rows| && now.rows[j] == rows[i];
      assert later.rows[j] == rows[i] && AskedFor([cid], true, rows[i]);
    }
  }

  /** Listing one channel from request `first` on; in advertised mode also its assertion. */
  method GatherOne(at: nat -> Db, up: nat -> bool, first: nat, size: Positive, channels: seq<string>, cid: string,
      advertised: bool, ghost quiet: nat)
    returns (items: seq<Row>, more: seq<Row>, next: nat, whole: bool)
    requires Grows(at) && Settled(at, quiet) && cid in channels
    ensures first < next && Sourced(at(next), channels, advertised, items + more)
    ensures whole ==> exists j: nat :: first <= j && items == Select(at(j).rows, InChannel(cid), 0)
    ensures Still(at, up) ==> whole && items + more == OneChannel(at(0), cid, advertised)
  {
    hide Coherent, Select, FindRow, Settled, Sourced;
    items, next, whole := ReadPages(at, up, first, size, InChannel(cid), quiet);
    assert at(next - 1).rows <= at(next).rows && Coherent(at(next - 1));
    assert Still(at, up) ==> at(next - 1) == at(0) && at(next) == at(0) && up(next);
    more := [];
    if advertised {
      more := ReadOne(at, up, next, cid);
      next := next + 1;
      assert at(next - 1).rows <= at(next).rows && Coherent(at(next - 1));
      GrowsTo(at, next - 2, next);
      OneSourced(at(next - 1), at(next), channels, cid, more);
      ListedSourced(at(next - 2), at(next), channels, advertised, items, cid);
    } else {
      ListedSourced(at(next - 1), at(next), channels, advertised, items, cid);
      NoneSourced(at(next), channels);
    }
    SourcedJoin(at(next), channels, advertised, items, more);
  }

  lemma NoneSourced(db: Db, channels: seq<string>)
    ensures Sourced(db, channels, false, []) && Sourced(db, channels, true, [])
  {
  }

  /** The items of each channel in turn, while the source may change and requests may fail. */
  method Gather(at: nat -> Db, up: nat -> bool, first: nat, size: Positive, channels: seq<string>, advertised: bool,
      ghost quiet: nat)
    returns (rows: seq<Row>, next: nat, whole: bool)
    requires Grows(at) && Settled(at, quiet)
    ensures first <= next && Sourced(at(next), channels, advertised, rows)
    ensures whole ==> Covers(at(first), channels, rows)
    ensures Still(at, up) ==> whole && rows == Gathered(at(0), channels, advertised)
  {
    hide Coherent, Select, FindRow, Grows, Settled, Sourced, Covers, OneChannel, Still;
    rows, next, whole := [], first, true;
    NoneSourced(at(first), []);
    NoneCovered(at(first));
    for i := 0 to |channels|
      invariant first <= next && Sourced(at(next), channels[..i], advertised, rows)
      invariant whole ==> Covers(at(first), channels[..i], rows)
      invariant Still(at, up) ==> whole && rows == Gathered(at(0), channels[..i], advertised)
    {
      var upTo := channels[..i + 1];
      assert upTo[..i] == channels[..i] && upTo == channels[..i] + [channels[i]];
      var items, more, after, fine := GatherOne(at, up, next, size, upTo, channels[i], advertised, quiet);
      GrowsTo(at, next, after);
      MoreSourced(at(next), at(after), channels[..i], advertised, rows, channels[i]);
      SourcedJoin(at(after), upTo, advertised, rows, items + more);
      if fine {
        ghost var j: nat :| next <= j && items == Select(at(j).rows, InChannel(channels[i]), 0);
        GrowsTo(at, first, j);
        if whole { CoversNext(at(first), at(j), channels[..i], channels[i], rows, items, more); }
      }
      assert rows + items + more == rows + (items + more);
      rows, next, whole := rows + items + more, after, whole && fine;
    }
    assert channels[..|channels|] == channels;
  }

  lemma NoneCovered(db: Db)
    ensures Covers(db, [], [])
  {
  }

  lemma CoversEarlier(start: Db, later: Db, ids: seq<string>, all: seq<string>, rows: seq<Row>)
    requires start.rows <= later.rows && (forall cid :: cid in ids ==> cid in all) && Covers(later, all, rows)
    ensures Covers(start, ids, rows)
  {
    hide Select;
    forall r, i | 0 <= i < |ids| && r in Select(start.rows, InChannel(ids[i]), 0) ensures r in rows {
      SelectGrows(start.rows, later.rows, InChannel(ids[i]), 0);
      assert ids[i] in all;
      var j :| 0 <= j < |all| && all[j] == ids[i];
    }
  }

  lemma AdvertisedGrow(now: Db, later: Db, cid: string)
    requires now.rows <= later.rows
    ensures cid in AdvertisedIds(now) ==> cid in AdvertisedIds(later)
  {
    hide Select;
    SelectGrows(now.rows, later.rows, Advertised, 0);
    var s, t := Select(now.rows, Advertised, 0), Select(later.rows, Advertised, 0);
    if cid in Ids(s) {
      var i :| 0 <= i < |s| && Ids(s)[i] == cid;
      assert Ids(t)[i] == cid;
    }
  }

  lemma ListedSource(at: nat -> Db, listed: seq<Row>, k: nat, end: nat, rows: seq<Row>)
    requires Grows(at) && k <= end && listed <= Select(at(k).rows, Advertised, 0)
            && Sourced(at(end), Ids(listed), true, rows)
    ensures Sourced(at(end), at(end).advertised, true, rows)
  {
    hide Coherent, Select;
    GrowsTo(at, k, end);
    assert Coherent(at(k)) && Coherent(at(end));
    forall cid | cid in Ids(listed) ensures cid in at(end).advertised {
      var i :| 0 <= i < |listed| && Ids(listed)[i] == cid;
      assert Select(at(k).rows, Advertised, 0)[i] == listed[i];
      assert AdvertisedIds(at(k))[i] == cid;
      ListedStays(at(k), at(end), cid);
    }
    forall i | 0 <= i < |rows| ensures rows[i] in at(end).rows && AskedFor(at(end).advertised, true, rows[i]) {
      assert AskedFor(Ids(listed), true, rows[i]);
    }
  }

  lemma StillMeans(at: nat -> Db, up: nat -> bool, i: nat)
    ensures Still(at, up) ==> up(i) && at(i) == at(0)
  {
  }

  lemma ListedCovers(at: nat -> Db, listed: seq<Row>, next: nat, rows: seq<Row>, whole: bool)
    requires Grows(at) && next > 0
    requires whole ==> listed == Select(at(next - 1).rows, Advertised, 0) && Covers(at(next), Ids(listed), rows)
    ensures whole ==> Covers(at(0), AdvertisedIds(at(0)), rows)
  {
    hide Grows, Select, Covers;
    if whole {
      GrowsTo(at, 0, next - 1);
      GrowsTo(at, 0, next);
      forall cid | cid in AdvertisedIds(at(0)) ensures cid in Ids(listed) { AdvertisedGrow(at(0), at(next - 1), cid); }
      CoversEarlier(at(0), at(next), AdvertisedIds(at(0)), Ids(listed), rows);
    }
  }

  /** Choose the channels and read them. None is an invalid channel argument. */
  method Collect(at: nat -> Db, up: nat -> bool, size: Positive, channel: Option<string>, ghost quiet: nat)
    returns (rows: Option<seq<Row>>, end: nat, whole: bool)
    requires Grows(at) && Settled(at, quiet)
    ensures rows == None <==> channel.Some? && ChannelOf(channel.value) == None
    ensures rows.Some? ==>
            Sourced(at(end), Asked(channel, at(end).advertised), channel == None, rows.value)
    ensures rows.Some? && whole ==>
              Covers(at(0), Asked(channel, AdvertisedIds(at(0))), rows.value)
    ensures rows.Some? && Still(at, up) ==>
              whole && rows.value == Gathered(at(0), Asked(channel, AdvertisedIds(at(0))), channel == None)
  {
    hide Coherent, Select, Grows, Settled, Sourced, Covers, Gathered, ChannelOf;
    var got;
    if channel.Some? {
      var ch := ChannelOf(channel.value);
      if ch == None { return None, 0, false; }
      got, end, whole := Gather(at, up, 0, size, [ch.value], false, quiet);
      return Some(got), end, whole;
    }
    var listed, next, all := ReadPages(at, up, 0, size, Advertised, quiet);
    got, end, whole := Gather(at, up, next, size, Ids(listed), true, quiet);
    ListedSource(at, listed, next - 1, end, got);
    ListedCovers(at, listed, next, got, all && whole);
    assert Still(at, up) ==> all by { StillMeans(at, up, next - 1); }
    return Some(got), end, all && whole;
  }

  /** sync, with a source that may change and fail while it is read. */
  method SyncRelays(at: nat -> Db, up: nat -> bool, size: Positive, dst: Server, dump: Dump, net: nat -> Link,
      channel: Option<string>, ghost quiet: nat)
    returns (r: Option<Counters>, rows: seq<Row>, end: nat, whole: bool)
    requires Faithful(dst.c.fp) && Grows(at) && Settled(at, quiet)
    modifies dst.store
    ensures r == None <==> channel.Some? && ChannelOf(channel.value) == None
    ensures r == None ==> dst.store.State() == old(dst.store.State())
    ensures r.Some? ==>
              Sourced(at(end), Asked(channel, at(end).advertised), channel == None, rows)
    ensures r.Some? && whole ==>
              Covers(at(0), Asked(channel, AdvertisedIds(at(0))), rows)
    ensures r.Some? && Still(at, up) ==>
              whole && rows == Gathered(at(0), Asked(channel, AdvertisedIds(at(0))), channel == None)
    ensures r.Some? ==>
              (var p := Steps(dst.c, dst.cfg, old(dst.store.State()), Wire(dst.c, dump, rows), net);
               dst.store.State() == p.db && r.value == p.count)
  {
    hide Grows, Settled, Sourced, Covers, Still, Faithful, Steps, Gathered, AdvertisedIds, WireText, ChannelOf;
    var got;
    got, end, whole := Collect(at, up, size, channel, quiet);
    if got == None { return None, [], end, whole; }
    rows := got.value;
    var n := Forward(Wire(dst.c, dump, rows), net, dst);
    r := Some(n);
  }

  /** In channel mode what is gathered is the channel's listing. */
  lemma ChannelGather(c: Suite, dump: Dump, src: Db, ch: string)
    ensures Wire(c, dump, Gathered(src, [ch], false)) == ChannelItems(c, dump, src, ch)
  {
    hide Select, WireText;
    assert Gathered(src, [], false) == [];
    assert [ch][..0] == [];
    assert Gathered(src, [ch], false) == Select(src.rows, InChannel(ch), 0);
  }
}
