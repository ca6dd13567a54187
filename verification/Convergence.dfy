/** Syncing between honest relays: what is gathered, what moves, and when both ends agree. */
module Convergence {
  import opened Values
  import opened Decimals
  import opened Bytes
  import opened Sorting
  import opened Printing
  import opened RoundTrip
  import opened Documents
  import opened Protocol
  import opened GoVerify
  import opened Validation
  import opened Revalidation
  import opened Relay
  import opened RelayRuns
  import opened Pages
  import opened Federation

  // ---------------------------------------------------------------- an item on its way

  /** json.dumps of the value the client's JSON library made of a served envelope. */
  type Dump = Value -> string

  function WireText(c: Suite, dump: Dump, r: Row): string {
    match ParseObject(c.fp, r.rec.envelope)
    case Some(v) => dump(v)
    case None => ""
  }

  function Wire(c: Suite, dump: Dump, rows: seq<Row>): (s: seq<string>)
    ensures |s| == |rows|
  {
    seq(|rows|, i requires 0 <= i < |rows| => WireText(c, dump, rows[i]))
  }

  /** The re-serialized text of a served row still denotes the same value. */
  ghost predicate KeepsValue(c: Suite, dump: Dump, r: Row) {
    ParseObject(c.fp, WireText(c, dump, r)) == ParseObject(c.fp, r.rec.envelope)
  }

  ghost predicate KeepsValues(c: Suite, dump: Dump, rows: seq<Row>) {
    forall i :: 0 <= i < |rows| ==> KeepsValue(c, dump, rows[i])
  }

  /** Re-serializing in canonical form is one such way. */
  lemma CanonicalKeepsValue(c: Suite, r: Row)
    requires Faithful(c.fp) && Authentic(c, r.rec)
    ensures KeepsValue(c, v => Print(c.fp, v), r)
  {
    hide Faithful, Parse, PyValidate, NoDup, Sound, Print, Unsigned;
    var v := ParseObject(c.fp, r.rec.envelope).value;
    assert r.rec.envelope == Print(c.fp, v);
  }

  /** What the destination makes of an item is its own verdict on the very record the source stores. */
  lemma ItemJudged(c: Suite, cfg: Config, dump: Dump, r: Row)
    requires Faithful(c.fp) && Authentic(c, r.rec) && KeepsValue(c, dump, r)
    ensures ValidateText(c, WireText(c, dump, r)) == ValidateText(c, r.rec.envelope)
    ensures var j := Judge(c, cfg, WireText(c, dump, r));
            && (j.Admitted? ==> j.rec == r.rec)
            && (j.Admitted? <==> Utf8Len(WireText(c, dump, r)) <= cfg.maxRecord && WithinPolicy(c, cfg, r.rec))
  {
    hide Faithful, Parse, PyValidate, Permits, Derive, Utf8Len, WireText;
  }

  // ---------------------------------------------------------------- gathering

  function FindRow(rows: seq<Row>, id: string): Option<Row> {
    if rows == [] then None else if rows[0].rec.id == id then Some(rows[0]) else FindRow(rows[1..], id)
  }

  lemma {:induction false} FindRowMeans(rows: seq<Row>, id: string)
    ensures match FindRow(rows, id)
            case Some(r) => r in rows && r.rec.id == id
            case None => !HasId(rows, id)
  {
    if rows != [] {
      FindRowMeans(rows[1..], id);
      if HasId(rows, id) && rows[0].rec.id != id {
        var i :| 0 <= i < |rows| && rows[i].rec.id == id;
        assert rows[1..][i - 1] == rows[i];
      }
    }
  }

  /** The rows read for one channel; in advertised mode also the channel assertion itself. */
  function OneChannel(db: Db, cid: string, advertised: bool): seq<Row> {
    Select(db.rows, InChannel(cid), 0)
    + (if advertised && FindRow(db.rows, cid).Some? then [FindRow(db.rows, cid).value] else [])
  }

  function Gathered(db: Db, channels: seq<string>, advertised: bool): seq<Row> {
    if channels == [] then []
    else Gathered(db, channels[..|channels| - 1], advertised) + OneChannel(db, channels[|channels| - 1], advertised)
  }

  function Ids(rows: seq<Row>): (s: seq<string>)
    ensures |s| == |rows|
  {
    seq(|rows|, i requires 0 <= i < |rows| => rows[i].rec.id)
  }

  function AdvertisedIds(db: Db): seq<string> { Ids(Select(db.rows, Advertised, 0)) }

  lemma ChannelOfChannel(c: Suite, rec: Record)
    requires Faithful(c.fp) && Authentic(c, rec) && rec.kind == "channel"
    ensures rec.channel == Some(rec.id)
  {
    hide Faithful, Parse, PyValidate, Unsigned, Lookup, Print;
  }

  /** A row of one of these channels or, in advertised mode, one of the channel assertions themselves. */
  predicate AskedFor(channels: seq<string>, advertised: bool, r: Row) {
    (r.rec.channel.Some? && r.rec.channel.value in channels) || (advertised && r.rec.id in channels)
  }

  ghost predicate Sourced(db: Db, channels: seq<string>, advertised: bool, rows: seq<Row>) {
    forall i :: 0 <= i < |rows| ==> rows[i] in db.rows && AskedFor(channels, advertised, rows[i])
  }

  /** What is gathered under advertised ids belongs to advertised channels. */
  lemma SourcedAdvertised(c: Suite, cfg: Config, db: Db, rows: seq<Row>, i: nat)
    requires Faithful(c.fp) && Ok(c, cfg, db) && Sourced(db, db.advertised, true, rows) && i < |rows|
    ensures rows[i] in db.rows && rows[i].rec.channel.Some? && rows[i].rec.channel.value in db.advertised
  {
    hide Faithful, Authentic, WithinPolicy, ChannelIds;
    var r := rows[i];
    assert AskedFor(db.advertised, true, r);
    if r.rec.id in db.advertised {
      AdvertisesChannels(c, cfg, db, r.rec.id);
      var k :| 0 <= k < |db.rows| && db.rows[k].rec.id == r.rec.id && db.rows[k].rec.kind == "channel";
      var j :| 0 <= j < |db.rows| && db.rows[j] == r;
      assert k == j;
      ChannelOfChannel(c, r.rec);
    }
  }

  /** An id listed as advertised is advertised by every later table. */
  lemma ListedStays(now: Db, later: Db, cid: string)
    requires Coherent(now) && Coherent(later) && now.rows <= later.rows
    ensures cid in AdvertisedIds(now) ==> cid in later.advertised
  {
    hide Select, SeqsIncrease, SeqsBelow, UniqueIds, ChannelIds;
    ChannelIdsAre(later.rows, cid);
    var s := Select(now.rows, Advertised, 0);
    if cid in AdvertisedIds(now) {
      var i :| 0 <= i < |s| && s[i].rec.id == cid;
      ListingMeans(now, Advertised, s[i]);
      var j :| 0 <= j < |now.rows| && now.rows[j] == s[i];
      assert later.rows[j] == s[i];
    }
  }

  // ---------------------------------------------------------------- the destination afterwards

  lemma {:induction false} RunRows(c: Suite, cfg: Config, db: Db, bodies: seq<string>, r: Row)
    requires r in Run(c, cfg, db, bodies).rows
    ensures r in db.rows || exists k :: 0 <= k < |bodies| && Judge(c, cfg, bodies[k]) == Admitted(r.rec)
    decreases |bodies|
  {
    hide Judge, HasId;
    if bodies != [] {
      RunRows(c, cfg, Posted(c, cfg, db, bodies[0]), bodies[1..], r);
      if k :| 0 <= k < |bodies[1..]| && Judge(c, cfg, bodies[1..][k]) == Admitted(r.rec) {
        assert bodies[k + 1] == bodies[1..][k];
      }
    }
  }

  /** Rows that all come from one honest table. */
  ghost predicate FromSource(c: Suite, scfg: Config, src: Db, dump: Dump, rows: seq<Row>) {
    Ok(c, scfg, src) && KeepsValues(c, dump, rows) && forall i :: 0 <= i < |rows| ==> rows[i] in src.rows
  }

  lemma SourceRow(c: Suite, scfg: Config, src: Db, dump: Dump, rows: seq<Row>, i: nat)
    requires FromSource(c, scfg, src, dump, rows) && i < |rows|
    ensures Authentic(c, rows[i].rec) && KeepsValue(c, dump, rows[i])
            && Wire(c, dump, rows)[i] == WireText(c, dump, rows[i])
  {
    hide Authentic, KeepsValue, WireText, WithinPolicy, ChannelIds;
  }

  lemma SourceItems(c: Suite, scfg: Config, src: Db, dump: Dump, rows: seq<Row>)
    requires Faithful(c.fp) && FromSource(c, scfg, src, dump, rows)
    ensures OneTextPerId(c, Wire(c, dump, rows))
  {
    hide Faithful, WireText, FromSource, KeepsValue, ValidateText;
    var items := Wire(c, dump, rows);
    forall i, j | 0 <= i < j < |items| && SameId(c, items[i], items[j]) ensures items[i] == items[j] {
      SourceRow(c, scfg, src, dump, rows, i);
      SourceRow(c, scfg, src, dump, rows, j);
      assert rows[i].rec.id == rows[j].rec.id by { ItemId(c, scfg, dump, rows[i]); ItemId(c, scfg, dump, rows[j]); }
      SameSourceRow(c, scfg, src, dump, rows, i, j);
    }
  }

  lemma ItemId(c: Suite, cfg: Config, dump: Dump, r: Row)
    requires Faithful(c.fp) && Authentic(c, r.rec) && KeepsValue(c, dump, r)
    ensures ValidateText(c, WireText(c, dump, r)).Valid? && ValidateText(c, WireText(c, dump, r)).id == r.rec.id
  {
    hide Faithful, ValidateText, KeepsValue, WireText, Judge, WithinPolicy, Utf8Len, Derive;
    ItemJudged(c, cfg, dump, r);
  }

  lemma SameSourceRow(c: Suite, scfg: Config, src: Db, dump: Dump, rows: seq<Row>, i: nat, j: nat)
    requires FromSource(c, scfg, src, dump, rows) && i < |rows| && j < |rows| && rows[i].rec.id == rows[j].rec.id
    ensures rows[i] == rows[j]
  {
    hide Authentic, KeepsValue, WireText, WithinPolicy, ChannelIds;
    var a :| 0 <= a < |src.rows| && src.rows[a] == rows[i];
    var b :| 0 <= b < |src.rows| && src.rows[b] == rows[j];
  }

  /** A row that appears at the destination is, record for record, one the source holds and the worker gathered. */
  lemma NewRowsCopied(c: Suite, cfg: Config, scfg: Config, src: Db, dst: Db, dump: Dump, rows: seq<Row>,
      net: nat -> Link, r: Row)
    requires Faithful(c.fp) && FromSource(c, scfg, src, dump, rows)
    requires r in Steps(c, cfg, dst, Wire(c, dump, rows), net).db.rows && r !in dst.rows
    ensures exists k :: 0 <= k < |rows| && rows[k].rec == r.rec
  {
    hide Faithful, Judge, FromSource, Steps, Run, ValidateText, KeepsValue, WireText, Authentic, WithinPolicy, Utf8Len;
    var items := Wire(c, dump, rows);
    SendsOnlyValid(c, cfg, dst, items, net);
    var sent := Steps(c, cfg, dst, items, net).sent;
    RunRows(c, cfg, dst, sent, r);
    var k :| 0 <= k < |sent| && Judge(c, cfg, sent[k]) == Admitted(r.rec);
    assert sent[k] in items;
    var i :| 0 <= i < |items| && items[i] == sent[k];
    SourceRow(c, scfg, src, dump, rows, i);
    ItemJudged(c, cfg, dump, rows[i]);
  }

  /** In advertised mode only assertions of channels the source advertises move. */
  lemma AdvertisedMovesOnlyAdvertised(
    c: Suite, cfg: Config, scfg: Config, src: Db, dst: Db, dump: Dump, rows: seq<Row>, net: nat -> Link, r: Row)
    requires Faithful(c.fp) && Ok(c, scfg, src) && KeepsValues(c, dump, rows)
            && Sourced(src, src.advertised, true, rows)
    requires r in Steps(c, cfg, dst, Wire(c, dump, rows), net).db.rows && r !in dst.rows
    ensures r.rec.channel.Some? && r.rec.channel.value in src.advertised
  {
    hide Faithful, Ok, Steps, KeepsValues, Wire, Sourced;
    forall i | 0 <= i < |rows| ensures rows[i] in src.rows { SourcedAdvertised(c, scfg, src, rows, i); }
    NewRowsCopied(c, cfg, scfg, src, dst, dump, rows, net, r);
    var k :| 0 <= k < |rows| && rows[k].rec == r.rec;
    SourcedAdvertised(c, scfg, src, rows, k);
  }

  // ---------------------------------------------------------------- convergence

  /** The ids a relay lists for a channel. */
  function ChannelSet(db: Db, ch: string): set<string> {
    set i | 0 <= i < |db.rows| && db.rows[i].rec.channel == Some(ch) :: db.rows[i].rec.id
  }

  /** The ids of that channel at the source whose items the destination's policy admits. */
  function Admissible(c: Suite, cfg: Config, dump: Dump, src: Db, ch: string): set<string> {
    set i | 0 <= i < |src.rows| && src.rows[i].rec.channel == Some(ch)
        && Judge(c, cfg, WireText(c, dump, src.rows[i])).Admitted?
      :: src.rows[i].rec.id
  }

  /** No two different U of these tables share an id. */
  ghost predicate NoClash(c: Suite, a: Db, b: Db) {
    forall i, j :: 0 <= i < |a.rows| && 0 <= j < |b.rows| && a.rows[i].rec.id == b.rows[j].rec.id ==>
      Separates(c, TextOfU(c, a.rows[i].rec.envelope), TextOfU(c, b.rows[j].rec.envelope))
  }

  lemma ColumnsBySame(c: Suite, a: Members, b: Members, id: string)
    requires NoDup(Obj(a)) && VersionAndType(Unsigned(a)) && Schema(Unsigned(a))
    requires NoDup(Obj(b)) && VersionAndType(Unsigned(b)) && Schema(Unsigned(b))
    requires SameValue(Obj(Unsigned(a)), Obj(Unsigned(b)))
    ensures Derive(c, a, id).channel == Derive(c, b, id).channel && Derive(c, a, id).hash == Derive(c, b, id).hash
    ensures Derive(c, a, id).kind == Derive(c, b, id).kind && Derive(c, a, id).actor == Derive(c, b, id).actor
  {
    hide Lookup, NoDup, CanonObj, Unsigned, Schema, VersionAndType, SameValue, Canon, Print;
    var u, w := Unsigned(a), Unsigned(b);
    UnsignedNoDup(a);
    UnsignedNoDup(b);
    CanonDecidesSame(Obj(u), Obj(w));
    CanonOfObj(u);
    CanonOfObj(w);
    assert CanonObj(u) == CanonObj(w);
    CanonScalars(u);
    CanonScalars(w);
    CanonReference(u);
    CanonReference(w);
    UnsignedLookup(a, "actor");
    UnsignedLookup(b, "actor");
  }

  /** One id, no collision: the same columns, whichever relay stored it. */
  lemma SameIdSameColumns(c: Suite, a: Record, b: Record)
    requires Faithful(c.fp) && Authentic(c, a) && Authentic(c, b) && a.id == b.id
    requires Separates(c, TextOfU(c, a.envelope), TextOfU(c, b.envelope))
    ensures a.channel == b.channel && a.hash == b.hash && a.kind == b.kind && a.actor == b.actor
  {
    hide Faithful, Parse, PyValidate, NoDup, Sound, Unsigned, Schema, VersionAndType, SameValue, Derive, Print;
    IdPinsU(c, a.envelope, b.envelope);
    ValidFacts(c, a.envelope);
    ValidFacts(c, b.envelope);
    ColumnsBySame(c, ParseObject(c.fp, a.envelope).value.members, ParseObject(c.fp, b.envelope).value.members, a.id);
  }

  /** The setting of a sync of one channel between two honest relays over a link on which every request arrives. */
  ghost predicate Setting(c: Suite, cfg: Config, scfg: Config, src: Db, dst: Db, dump: Dump, net: nat -> Link) {
    && Faithful(c.fp) && Ok(c, scfg, src) && Ok(c, cfg, dst)
    && KeepsValues(c, dump, src.rows) && Arrives(net) && NoClash(c, dst, src)
  }

  function ChannelItems(c: Suite, dump: Dump, src: Db, ch: string): seq<string> {
    Wire(c, dump, Select(src.rows, InChannel(ch), 0))
  }

  lemma ChannelFromSource(c: Suite, cfg: Config, scfg: Config, src: Db, dst: Db, dump: Dump, net: nat -> Link,
      ch: string)
    requires Setting(c, cfg, scfg, src, dst, dump, net)
    ensures FromSource(c, scfg, src, dump, Select(src.rows, InChannel(ch), 0))
  {
    hide Faithful, KeepsValue, Authentic, WithinPolicy, ChannelIds, Select, NoClash;
    OkIsCoherent(c, scfg, src);
    var rows := Select(src.rows, InChannel(ch), 0);
    forall i | 0 <= i < |rows| ensures rows[i] in src.rows && KeepsValue(c, dump, rows[i]) {
      ListingMeans(src, InChannel(ch), rows[i]);
      var j :| 0 <= j < |src.rows| && src.rows[j] == rows[i];
    }
  }

  /** An admissible row of the source: afterwards the destination lists its id under the channel. */
  lemma AdmissibleArrives(c: Suite, cfg: Config, scfg: Config, src: Db, dst: Db, dump: Dump, net: nat -> Link,
      ch: string, i: nat)
    requires Setting(c, cfg, scfg, src, dst, dump, net) && i < |src.rows| && src.rows[i].rec.channel == Some(ch)
    requires Judge(c, cfg, WireText(c, dump, src.rows[i])).Admitted?
    ensures src.rows[i].rec.id in ChannelSet(Steps(c, cfg, dst, ChannelItems(c, dump, src, ch), net).db, ch)
  {
    hide Setting, Judge, Steps, Select, Authentic, WithinPolicy, KeepsValue, WireText, HasId, ValidateText, Separates;
    var s := src.rows[i];
    var rows, items := Select(src.rows, InChannel(ch), 0), ChannelItems(c, dump, src, ch);
    ChannelFromSource(c, cfg, scfg, src, dst, dump, net, ch);
    SettingFacts(c, cfg, scfg, src, dst, dump, net);
    ListingMeans(src, InChannel(ch), s);
    var k :| 0 <= k < |rows| && rows[k] == s;
    SourceRow(c, scfg, src, dump, rows, k);
    ItemJudged(c, cfg, dump, s);
    SourceItems(c, scfg, src, dump, rows);
    assert Submitted(c, cfg, items, s.rec.id) by { assert items[k] == WireText(c, dump, s); }
    SyncStoresAll(c, cfg, dst, items, net, s.rec.id);
    var after := Steps(c, cfg, dst, items, net).db;
    var d := RowWithId(after.rows, s.rec.id);
    if after.rows[d] in dst.rows {
      OldRowListed(c, cfg, scfg, src, dst, dump, net, after.rows[d], i);
    } else {
      NewRowsCopied(c, cfg, scfg, src, dst, dump, rows, net, after.rows[d]);
      var m :| 0 <= m < |rows| && rows[m].rec == after.rows[d].rec;
      SameSourceRow(c, scfg, src, dump, rows, m, k);
    }
  }

  ghost function RowWithId(rows: seq<Row>, id: string): (i: nat)
    requires HasId(rows, id)
    ensures i < |rows| && rows[i].rec.id == id
  {
    var i :| 0 <= i < |rows| && rows[i].rec.id == id;
    i
  }

  lemma SettingFacts(c: Suite, cfg: Config, scfg: Config, src: Db, dst: Db, dump: Dump, net: nat -> Link)
    requires Setting(c, cfg, scfg, src, dst, dump, net)
    ensures Faithful(c.fp) && Coherent(src) && Arrives(net)
  {
  }

  lemma OldRowListed(c: Suite, cfg: Config, scfg: Config, src: Db, dst: Db, dump: Dump, net: nat -> Link, d: Row,
      i: nat)
    requires Setting(c, cfg, scfg, src, dst, dump, net) && d in dst.rows && i < |src.rows|
            && d.rec.id == src.rows[i].rec.id
    ensures d.rec.channel == src.rows[i].rec.channel
  {
    hide Faithful, Authentic, WithinPolicy, KeepsValue, Separates, ChannelIds;
    var j :| 0 <= j < |dst.rows| && dst.rows[j] == d;
    SameIdSameColumns(c, d.rec, src.rows[i].rec);
  }

  /** Syncing a channel makes the destination's set its old set united with what its policy admits of the source's. */
  lemma Converges(c: Suite, cfg: Config, scfg: Config, src: Db, dst: Db, dump: Dump, net: nat -> Link, ch: string)
    requires Setting(c, cfg, scfg, src, dst, dump, net)
    ensures ChannelSet(Steps(c, cfg, dst, ChannelItems(c, dump, src, ch), net).db, ch) ==
            ChannelSet(dst, ch) + Admissible(c, cfg, dump, src, ch)
  {
    hide Setting, Steps, Judge, WireText, Select;
    var after := Steps(c, cfg, dst, ChannelItems(c, dump, src, ch), net).db;
    forall id | id in ChannelSet(dst, ch) ensures id in ChannelSet(after, ch) {
      var i :| 0 <= i < |dst.rows| && dst.rows[i].rec.channel == Some(ch) && dst.rows[i].rec.id == id;
      StepsGrow(c, cfg, dst, ChannelItems(c, dump, src, ch), net);
      assert after.rows[i] == dst.rows[i];
    }
    forall id | id in Admissible(c, cfg, dump, src, ch) ensures id in ChannelSet(after, ch) {
      var i :| 0 <= i < |src.rows| && src.rows[i].rec.channel == Some(ch)
        && Judge(c, cfg, WireText(c, dump, src.rows[i])).Admitted? && src.rows[i].rec.id == id;
      AdmissibleArrives(c, cfg, scfg, src, dst, dump, net, ch, i);
    }
    forall id | id in ChannelSet(after, ch)
      ensures id in ChannelSet(dst, ch) || id in Admissible(c, cfg, dump, src, ch)
    {
      var i :| 0 <= i < |after.rows| && after.rows[i].rec.channel == Some(ch) && after.rows[i].rec.id == id;
      NothingElse(c, cfg, scfg, src, dst, dump, net, ch, after.rows[i]);
    }
  }

  lemma {:induction false} StepsGrow(c: Suite, cfg: Config, db: Db, gathered: seq<string>, net: nat -> Link)
    ensures db.rows <= Steps(c, cfg, db, gathered, net).db.rows
    decreases |gathered|
  {
    hide Judge, ValidateText, HasId;
    if gathered != [] { StepsGrow(c, cfg, db, gathered[..|gathered| - 1], net); }
  }

  lemma NothingElse(c: Suite, cfg: Config, scfg: Config, src: Db, dst: Db, dump: Dump, net: nat -> Link, ch: string,
      r: Row)
    requires Setting(c, cfg, scfg, src, dst, dump, net)
    requires r in Steps(c, cfg, dst, ChannelItems(c, dump, src, ch), net).db.rows && r.rec.channel == Some(ch)
    ensures r.rec.id in ChannelSet(dst, ch) + Admissible(c, cfg, dump, src, ch)
  {
    hide Setting, Steps, Judge, WireText, Select, Run, KeepsValue, Authentic, WithinPolicy, ValidateText, Utf8Len;
    var rows, items := Select(src.rows, InChannel(ch), 0), ChannelItems(c, dump, src, ch);
    SendsOnlyValid(c, cfg, dst, items, net);
    var sent := Steps(c, cfg, dst, items, net).sent;
    RunRows(c, cfg, dst, sent, r);
    if r !in dst.rows {
      var k :| 0 <= k < |sent| && Judge(c, cfg, sent[k]) == Admitted(r.rec);
      assert sent[k] in items;
      var i :| 0 <= i < |items| && items[i] == sent[k];
      ChannelFromSource(c, cfg, scfg, src, dst, dump, net, ch);
      SettingFacts(c, cfg, scfg, src, dst, dump, net);
      SourceRow(c, scfg, src, dump, rows, i);
      ItemJudged(c, cfg, dump, rows[i]);
      ListingMeans(src, InChannel(ch), rows[i]);
      var m :| 0 <= m < |src.rows| && src.rows[m] == rows[i];
      assert src.rows[m].rec.id == r.rec.id;
    }
  }

  // ---------------------------------------------------------------- accept-all policies

  predicate Open(cfg: Config) {
    && cfg.blockActor == "" && cfg.blockChannel == "" && cfg.multiplier == 1
    && cfg.maxLocators >= MAX_LOCATORS && cfg.maxLocatorBytes >= MAX_LOCATOR_BYTES && cfg.maxParents >= MAX_PARENTS
  }

  lemma ValidCounts(c: Suite, body: string)
    requires Faithful(c.fp) && ValidateText(c, body).Valid? && ParseObject(c.fp, body).Some?
    ensures Counts(Unsigned(ParseObject(c.fp, body).value.members))
  {
    hide Parse, PyValidate, Unsigned, VersionAndType, Schema, Identifiers, NonceAndCreated, Counts, IdMatches, WorkDone,
         SignatureVerifies,
         NoDup, Sound, Faithful, Utf8Len, Canonical;
    ParsedObject(c, body);
    VerdictsAgree(c, ParseObject(c.fp, body).value.members);
  }

  lemma OpenCounts(cfg: Config, u: Members)
    requires Open(cfg) && VersionAndType(u) && Schema(u) && Counts(u)
    ensures LocatorsWithin(RefLocators(u), cfg) && |Protocol.Items(Field(u, "parents"))| <= cfg.maxParents
  {
    hide Lookup, Names, RefShape, Utf8Len;
    KindsDiffer();
    LocatorsOf(u);
    var locs := RefLocators(u);
    forall i | 0 <= i < |locs| && locs[i].Str?
      ensures Utf8Len(locs[i].s) <= cfg.maxLocatorBytes
    {
      assert ShortLocator(locs[i]);
    }
  }

  /** A relay without local restrictions permits every valid assertion. */
  lemma OpenPermits(c: Suite, cfg: Config, rec: Record)
    requires Faithful(c.fp) && Open(cfg) && Authentic(c, rec)
    ensures WithinPolicy(c, cfg, rec)
  {
    hide Faithful, Parse, PyValidate, NoDup, Sound, Unsigned, Schema, VersionAndType, Counts, LocatorsWithin, LocalWork,
         Derive, Lookup;
    ValidFacts(c, rec.envelope);
    ValidCounts(c, rec.envelope);
    var env := ParseObject(c.fp, rec.envelope).value.members;
    PlainWork(c, env);
    OpenCounts(cfg, Unsigned(env));
  }

  ghost predicate Fits(c: Suite, cfg: Config, dump: Dump, rows: seq<Row>) {
    forall i :: 0 <= i < |rows| ==> Utf8Len(WireText(c, dump, rows[i])) <= cfg.maxRecord
  }

  lemma OpenAdmitsAll(c: Suite, cfg: Config, scfg: Config, src: Db, dst: Db, dump: Dump, net: nat -> Link, ch: string)
    requires Setting(c, cfg, scfg, src, dst, dump, net) && Open(cfg) && Fits(c, cfg, dump, src.rows)
    ensures Admissible(c, cfg, dump, src, ch) == ChannelSet(src, ch)
  {
    hide Faithful, Authentic, WithinPolicy, KeepsValue, ChannelIds, Judge, WireText, Open, NoClash, Utf8Len;
    forall i | 0 <= i < |src.rows| ensures Judge(c, cfg, WireText(c, dump, src.rows[i])).Admitted? {
      OpenPermits(c, cfg, src.rows[i].rec);
      ItemJudged(c, cfg, dump, src.rows[i]);
    }
  }

  // ---------------------------------------------------------------- both directions

  /** Each row of a table is one of these or has the record of one of those. */
  lemma AfterRows(c: Suite, cfg: Config, scfg: Config, src: Db, dst: Db, dump: Dump, net: nat -> Link, ch: string,
      r: Row)
    requires Setting(c, cfg, scfg, src, dst, dump, net)
    requires r in Steps(c, cfg, dst, ChannelItems(c, dump, src, ch), net).db.rows
    ensures r in dst.rows || exists m :: 0 <= m < |src.rows| && src.rows[m].rec == r.rec
  {
    hide Setting, Steps, WireText, Select, FromSource;
    if r !in dst.rows {
      ChannelFromSource(c, cfg, scfg, src, dst, dump, net, ch);
      SettingFacts(c, cfg, scfg, src, dst, dump, net);
      var rows := Select(src.rows, InChannel(ch), 0);
      NewRowsCopied(c, cfg, scfg, src, dst, dump, rows, net, r);
      var k :| 0 <= k < |rows| && rows[k].rec == r.rec;
      ListingMeans(src, InChannel(ch), rows[k]);
      var m :| 0 <= m < |src.rows| && src.rows[m] == rows[k];
      assert src.rows[m].rec == r.rec;
    }
  }

  /** The way back is again such a setting. */
  lemma WayBack(c: Suite, cfgA: Config, cfgB: Config, a: Db, b: Db, dump: Dump, there: nat -> Link, back: nat -> Link,
      ch: string)
    requires Setting(c, cfgB, cfgA, a, b, dump, there) && KeepsValues(c, dump, b.rows) && Arrives(back)
    requires Fits(c, cfgA, dump, a.rows) && Fits(c, cfgA, dump, b.rows)
    ensures var b1 := Steps(c, cfgB, b, ChannelItems(c, dump, a, ch), there).db;
            Setting(c, cfgA, cfgB, b1, a, dump, back) && Fits(c, cfgA, dump, b1.rows)
  {
    hide Faithful, Ok, KeepsValue, Steps, ChannelItems, Run, Separates, ValidateText, WireText, Utf8Len;
    var items := ChannelItems(c, dump, a, ch);
    var p := Steps(c, cfgB, b, items, there);
    SendsOnlyValid(c, cfgB, b, items, there);
    RunKeeps(c, cfgB, b, p.sent);
    forall i | 0 <= i < |p.db.rows|
      ensures KeepsValue(c, dump, p.db.rows[i]) && Utf8Len(WireText(c, dump, p.db.rows[i])) <= cfgA.maxRecord
    {
      AfterRows(c, cfgB, cfgA, a, b, dump, there, ch, p.db.rows[i]);
      RowOrigin(c, dump, a, b, p.db.rows[i], cfgA);
    }
    forall i, j | 0 <= i < |a.rows| && 0 <= j < |p.db.rows| && a.rows[i].rec.id == p.db.rows[j].rec.id
      ensures Separates(c, TextOfU(c, a.rows[i].rec.envelope), TextOfU(c, p.db.rows[j].rec.envelope))
    {
      AfterRows(c, cfgB, cfgA, a, b, dump, there, ch, p.db.rows[j]);
      NoClashBack(c, cfgA, a, b, i, p.db.rows[j]);
    }
  }

  lemma RowOrigin(c: Suite, dump: Dump, a: Db, b: Db, r: Row, cfg: Config)
    requires KeepsValues(c, dump, a.rows) && KeepsValues(c, dump, b.rows) && Fits(c, cfg, dump, a.rows)
            && Fits(c, cfg, dump, b.rows)
    requires r in b.rows || exists m :: 0 <= m < |a.rows| && a.rows[m].rec == r.rec
    ensures KeepsValue(c, dump, r) && Utf8Len(WireText(c, dump, r)) <= cfg.maxRecord
  {
    hide Utf8Len, ParseObject;
  }

  lemma NoClashBack(c: Suite, cfgA: Config, a: Db, b: Db, i: nat, r: Row)
    requires Ok(c, cfgA, a) && NoClash(c, b, a) && i < |a.rows| && a.rows[i].rec.id == r.rec.id
    requires r in b.rows || exists m :: 0 <= m < |a.rows| && a.rows[m].rec == r.rec
    ensures Separates(c, TextOfU(c, a.rows[i].rec.envelope), TextOfU(c, r.rec.envelope))
  {
    hide RowsOk, ChannelIds, TextOfU;
    if r in b.rows {
      var j :| 0 <= j < |b.rows| && b.rows[j] == r;
      assert Separates(c, TextOfU(c, b.rows[j].rec.envelope), TextOfU(c, a.rows[i].rec.envelope));
    } else {
      var m :| 0 <= m < |a.rows| && a.rows[m].rec == r.rec;
      assert m == i;
    }
  }

  /** With accept-all policies, a sync one way and then the other leaves both relays with the union. */
  lemma BothWays(c: Suite, cfgA: Config, cfgB: Config, a: Db, b: Db, dump: Dump, there: nat -> Link, back: nat -> Link,
      ch: string)
    requires Setting(c, cfgB, cfgA, a, b, dump, there) && KeepsValues(c, dump, b.rows) && Arrives(back)
    requires Open(cfgA) && Open(cfgB) && Fits(c, cfgB, dump, a.rows) && Fits(c, cfgA, dump, a.rows)
            && Fits(c, cfgA, dump, b.rows)
    ensures var b1 := Steps(c, cfgB, b, ChannelItems(c, dump, a, ch), there).db;
            var a1 := Steps(c, cfgA, a, ChannelItems(c, dump, b1, ch), back).db;
            ChannelSet(a1, ch) == ChannelSet(b1, ch) == ChannelSet(a, ch) + ChannelSet(b, ch)
  {
    hide Setting, Steps, ChannelItems, Admissible, ChannelSet, Fits, KeepsValues, Open;
    var b1 := Steps(c, cfgB, b, ChannelItems(c, dump, a, ch), there).db;
    Converges(c, cfgB, cfgA, a, b, dump, there, ch);
    OpenAdmitsAll(c, cfgB, cfgA, a, b, dump, there, ch);
    WayBack(c, cfgA, cfgB, a, b, dump, there, back, ch);
    Converges(c, cfgA, cfgB, b1, a, dump, back, ch);
    OpenAdmitsAll(c, cfgA, cfgB, b1, a, dump, back, ch);
  }

  /** Repeating a channel sync at once changes nothing, and forwards nothing when replies can be read. */
  lemma ChannelRepeat(c: Suite, cfg: Config, src: Db, dst: Db, dump: Dump, net: nat -> Link, again: nat -> Link,
      ch: string)
    requires Arrives(net)
    ensures var items := ChannelItems(c, dump, src, ch);
            var p := Steps(c, cfg, dst, items, net);
            var q := Steps(c, cfg, p.db, items, again);
            && q.db == p.db && (Readable(again) ==> q.count.forwarded == 0)
            && (Heard(net) ==> |p.db.rows| == |dst.rows| + p.count.forwarded)
  {
    hide Steps, Select, ChannelItems, Arrives, Readable, Heard;
    RepeatForwardsNothing(c, cfg, dst, ChannelItems(c, dump, src, ch), net, again);
    ForwardedWhenHeard(c, cfg, dst, ChannelItems(c, dump, src, ch), net);
  }
}
