/** The in-memory relay: indexes kept up to date on every put, pages by offset, and agreement with the durable one. */
module MemoryRelay {
  import opened Values
  import opened Lists
  import opened Decimals
  import opened Bytes
  import opened Protocol
  import opened GoVerify
  import opened Validation
  import opened Revalidation
  import opened Relay
  import opened RelayRuns
  import opened Pages
  import opened Cursor
  import opened Convergence
  import opened Documents
  import opened RoundTrip

  const PREFIX := "sha256:"

  predicate HasPrefix(s: string) { |s| >= 7 && s[..7] == PREFIX }

  // ---------------------------------------------------------------- the maintained indexes

  datatype Mem = Mem(
    envelopes: map<string, Members>, order: seq<string>, channelOf: map<string, seq<string>>,
    objectOf: map<string, seq<string>>, advertised: seq<string>)

  const NOTHING := Mem(map[], [], map[], map[], [])

  function Digits(ident: string): string { if |ident| >= 7 then ident[7..] else "" }

  /** The key of a string identifier, when it has the prefix. */
  function KeyOf(v: Option<Value>): Option<string> {
    if v.Some? && v.value.Str? && HasPrefix(v.value.s) then Some(v.value.s[7..]) else None
  }

  function ChannelKey(env: Members, digest: string): Option<string> {
    var u := Unsigned(env);
    if IsChannel(u) then Some(digest) else if IsPointer(u) then KeyOf(Field(u, "channel")) else None
  }

  function HashKey(env: Members): Option<string> { KeyOf(SubField(Reference(Unsigned(env)), "hash")) }

  function ListAt(index: map<string, seq<string>>, key: string): seq<string> { if key in index then index[key] else [] }

  /** setdefault(key, []).append(digest) */
  function Append(index: map<string, seq<string>>, key: Option<string>, digest: string): map<string, seq<string>> {
    if key == None then index else index[key.value := ListAt(index, key.value) + [digest]]
  }

  function Kept(m: Mem, env: Members, ident: string): Mem {
    var d := Digits(ident);
    if d in m.envelopes then m
    else Mem(
      m.envelopes[d := env], m.order + [d],
      Append(m.channelOf, ChannelKey(env, d), d), Append(m.objectOf, HashKey(env), d),
      if IsChannel(Unsigned(env)) then m.advertised + [d] else m.advertised)
  }

  class MemoryStore {
    var envelopes: map<string, Members>
    var order: seq<string>
    var channelOf: map<string, seq<string>>
    var objectOf: map<string, seq<string>>
    var advertised: seq<string>

    function State(): Mem
      reads this
    {
      Mem(envelopes, order, channelOf, objectOf, advertised)
    }

    constructor ()
      ensures State() == NOTHING
    {
      envelopes, order, channelOf, objectOf, advertised := map[], [], map[], map[], [];
    }

    method Put(env: Members, ident: string)
      modifies this
      ensures State() == Kept(old(State()), env, ident)
    {
      hide Lookup, Unsigned;
      KindsDiffer();
      var digest := Digits(ident);
      if digest in envelopes { return; }
      envelopes := envelopes[digest := env];
      order := order + [digest];
      var u := Unsigned(env);
      if IsChannel(u) {
        advertised := advertised + [digest];
        channelOf := channelOf[digest := ListAt(channelOf, digest) + [digest]];
        var h := SubField(Field(u, "descriptor"), "hash");
        if h.Some? && h.value.Str? && HasPrefix(h.value.s) {
          objectOf := objectOf[h.value.s[7..] := ListAt(objectOf, h.value.s[7..]) + [digest]];
        }
      } else if IsPointer(u) {
        var ch := Field(u, "channel");
        if ch.Some? && ch.value.Str? && HasPrefix(ch.value.s) {
          channelOf := channelOf[ch.value.s[7..] := ListAt(channelOf, ch.value.s[7..]) + [digest]];
        }
        var h := SubField(Field(u, "ref"), "hash");
        if h.Some? && h.value.Str? && HasPrefix(h.value.s) {
          objectOf := objectOf[h.value.s[7..] := ListAt(objectOf, h.value.s[7..]) + [digest]];
        }
      }
    }
  }

  // ---------------------------------------------------------------- indexes are filters of the history

  /** The query of a listing request; here identifiers are the digits of the path. */
  predicate Wanted(q: Query, env: Members, digest: string) {
    match q
    case InChannel(x) => ChannelKey(env, digest) == Some(x)
    case OnObject(x) => HashKey(env) == Some(x)
    case Advertised => IsChannel(Unsigned(env))
  }

  function Filter(envs: map<string, Members>, order: seq<string>, q: Query): seq<string> {
    if order == [] then []
    else
      var init, d := Filter(envs, order[..|order| - 1], q), order[|order| - 1];
      if d in envs && Wanted(q, envs[d], d) then init + [d] else init
  }

  /** What the relay serves for a query. */
  function Served(m: Mem, q: Query): seq<string> {
    match q
    case InChannel(x) => ListAt(m.channelOf, x)
    case OnObject(x) => ListAt(m.objectOf, x)
    case Advertised => m.advertised
  }

  ghost predicate Indexed(m: Mem) {
    && NoRepeats(m.order) && (forall d :: d in m.order <==> d in m.envelopes)
    && forall q :: Served(m, q) == Filter(m.envelopes, m.order, q)
  }

  lemma {:induction false} FilterSame(envs: map<string, Members>, order: seq<string>, q: Query, d: string, env: Members)
    requires d !in order
    ensures Filter(envs[d := env], order, q) == Filter(envs, order, q)
  {
    hide Wanted;
    if order != [] { FilterSame(envs, order[..|order| - 1], q, d, env); }
  }

  lemma ServedNext(m: Mem, env: Members, ident: string, q: Query)
    requires Digits(ident) !in m.envelopes
    ensures var d := Digits(ident);
            Served(Kept(m, env, ident), q) == Served(m, q) + if Wanted(q, env, d) then [d] else []
  {
    hide ChannelKey, HashKey, IsChannel, Unsigned, Digits;
  }

  lemma KeptIndexed(m: Mem, env: Members, ident: string)
    requires Indexed(m)
    ensures Indexed(Kept(m, env, ident))
  {
    hide Wanted, Digits, Served, Append, ChannelKey, HashKey, IsChannel, Unsigned;
    var d := Digits(ident);
    if d !in m.envelopes {
      var after := Kept(m, env, ident);
      forall q ensures Served(after, q) == Filter(after.envelopes, after.order, q) {
        ServedNext(m, env, ident, q);
        FilterSame(m.envelopes, m.order, q, d, env);
        assert after.order[..|after.order| - 1] == m.order;
      }
    }
  }

  /** An accepted submission: the parsed envelope and its validated id. */
  datatype Accept = Accept(env: Members, id: string)

  function Memory(m: Mem, history: seq<Accept>): Mem
    decreases |history|
  {
    if history == [] then m
    else
      var last := history[|history| - 1];
      Kept(Memory(m, history[..|history| - 1]), last.env, last.id)
  }

  /** For every history the maintained lists are the filters of the stored envelopes, in order of arrival. */
  lemma {:induction false} MemoryIndexed(history: seq<Accept>)
    ensures Indexed(Memory(NOTHING, history))
    decreases |history|
  {
    hide Kept, Filter;
    if history != [] {
      MemoryIndexed(history[..|history| - 1]);
      var last := history[|history| - 1];
      KeptIndexed(Memory(NOTHING, history[..|history| - 1]), last.env, last.id);
    } else {
      forall q ensures Served(NOTHING, q) == Filter(NOTHING.envelopes, NOTHING.order, q) { NoOrder(q); }
    }
  }

  lemma NoOrder(q: Query)
    ensures Filter(map[], [], q) == []
  {
  }

  // ---------------------------------------------------------------- the durable relay on the same history

  function Durable(c: Suite, db: Db, history: seq<Accept>): Db
    decreases |history|
  {
    if history == [] then db
    else
      var last := history[|history| - 1];
      Added(Durable(c, db, history[..|history| - 1]), Derive(c, last.env, last.id))
  }

  ghost predicate Genuine(c: Suite, a: Accept) {
    NoDup(Obj(a.env)) && PyValidate(c, a.env).Valid? && PyValidate(c, a.env).id == a.id
  }

  ghost predicate AllGenuine(c: Suite, history: seq<Accept>) {
    forall i :: 0 <= i < |history| ==> Genuine(c, history[i])
  }

  function Prefixed(key: Option<string>): Option<string> { if key == None then None else Some(PREFIX + key.value) }

  /** A row and a dictionary entry for one assertion. */
  ghost predicate Corresponds(rec: Record, env: Members, digest: string) {
    && rec.id == PREFIX + digest && rec.channel == Prefixed(ChannelKey(env, digest))
       && rec.hash == Prefixed(HashKey(env))
    && (rec.kind == "channel" <==> IsChannel(Unsigned(env)))
  }

  ghost predicate Alike(m: Mem, db: Db) {
    && |m.order| == |db.rows| && SeqsBelow(db.rows, db.last)
    && forall i :: 0 <= i < |m.order| ==>
       m.order[i] in m.envelopes && Corresponds(db.rows[i].rec, m.envelopes[m.order[i]], m.order[i])
  }

  lemma IdKey(v: Option<Value>)
    requires v.Some? ==> IsIdStr(v.value)
    ensures StrOf(v) == Prefixed(KeyOf(v))
  {
    hide IsLowerHexDigit;
    if v.Some? {
      var s := v.value.s;
      assert s == s[..7] + s[7..];
    }
  }

  lemma IdDigits(id: string)
    requires IsSha256Id(id)
    ensures id == PREFIX + Digits(id)
  {
    hide IsLowerHexDigit;
    assert id == id[..7] + id[7..];
  }

  lemma GenuineIds(c: Suite, a: Accept)
    requires Genuine(c, a)
    ensures VersionAndType(Unsigned(a.env)) && Schema(Unsigned(a.env)) && Identifiers(Unsigned(a.env))
            && IsSha256Id(a.id)
  {
    hide PyValidate, NoDup, Unsigned, VersionAndType, Schema, Identifiers, NonceAndCreated, Lengths, WorkDone,
         SignatureVerifies, Canonical;
    VerdictsAgree(c, a.env);
    ValidShape(c, a.env);
    IdIsTagged(c.sha256(Canonical(c, Unsigned(a.env))));
  }

  lemma GenuineCorresponds(c: Suite, a: Accept)
    requires Genuine(c, a)
    ensures Corresponds(Derive(c, a.env, a.id), a.env, Digits(a.id)) && a.id == PREFIX + Digits(a.id)
  {
    hide PyValidate, NoDup, Unsigned, Lookup, Names, RefShape, IsSha256Id, Canonical, Digits, KeyOf, Prefixed,
         NonceAndCreated;
    GenuineIds(c, a);
    IdDigits(a.id);
    KindsDiffer();
    var u := Unsigned(a.env);
    IdKey(SubField(Reference(u), "hash"));
    if IsPointer(u) { IdKey(Field(u, "channel")); }
    assert Prefixed(Some(Digits(a.id))) == Some(a.id) by { PrefixSome(Digits(a.id)); }
  }

  lemma PrefixSome(s: string)
    ensures Prefixed(Some(s)) == Some(PREFIX + s)
  {
  }

  lemma KnownAlike(m: Mem, db: Db, digest: string)
    requires Alike(m, db) && Indexed(m)
    ensures HasId(db.rows, PREFIX + digest) <==> digest in m.envelopes
  {
    hide ChannelKey, HashKey, Prefixed, Served, Filter;
    if HasId(db.rows, PREFIX + digest) {
      var i :| 0 <= i < |db.rows| && db.rows[i].rec.id == PREFIX + digest;
      assert Corresponds(db.rows[i].rec, m.envelopes[m.order[i]], m.order[i]);
      assert (PREFIX + digest)[7..] == digest && (PREFIX + m.order[i])[7..] == m.order[i];
    }
    if digest in m.envelopes {
      assert digest in m.order;
      var i :| 0 <= i < |m.order| && m.order[i] == digest;
      assert Corresponds(db.rows[i].rec, m.envelopes[m.order[i]], m.order[i]);
    }
  }

  lemma AlikeNext(c: Suite, m: Mem, db: Db, a: Accept)
    requires Alike(m, db) && Indexed(m) && Genuine(c, a)
    ensures Alike(Kept(m, a.env, a.id), Added(db, Derive(c, a.env, a.id)))
  {
    hide Corresponds, Derive, Genuine, Digits, HasId, Append, ChannelKey, HashKey, IsChannel, Unsigned, Served, Filter;
    GenuineCorresponds(c, a);
    KnownAlike(m, db, Digits(a.id));
    DeriveId(c, a);
    var m1, db1 := Kept(m, a.env, a.id), Added(db, Derive(c, a.env, a.id));
    if Digits(a.id) !in m.envelopes {
      forall i | 0 <= i < |m1.order|
        ensures m1.order[i] in m1.envelopes && Corresponds(db1.rows[i].rec, m1.envelopes[m1.order[i]], m1.order[i])
      {
        if i < |m.order| { assert m1.order[i] == m.order[i] && db1.rows[i] == db.rows[i]; }
      }
    }
  }

  lemma DeriveId(c: Suite, a: Accept)
    ensures Derive(c, a.env, a.id).id == a.id
  {
  }

  lemma {:induction false} HistoriesAlike(c: Suite, history: seq<Accept>)
    requires AllGenuine(c, history)
    ensures Alike(Memory(NOTHING, history), Durable(c, EMPTY, history))
    decreases |history|
  {
    hide Kept, Added, Genuine, Derive, Indexed;
    if history != [] {
      var k := |history| - 1;
      HistoriesAlike(c, history[..k]);
      MemoryIndexed(history[..k]);
      AlikeNext(c, Memory(NOTHING, history[..k]), Durable(c, EMPTY, history[..k]), history[k]);
    }
  }

  // ---------------------------------------------------------------- the same lists

  function WithPrefix(ds: seq<string>): (s: seq<string>)
    ensures |s| == |ds|
  {
    seq(|ds|, i requires 0 <= i < |ds| => PREFIX + ds[i])
  }

  /** The durable relay's query for the same path. */
  function FullQuery(q: Query): Query {
    match q
    case InChannel(x) => InChannel(PREFIX + x)
    case OnObject(x) => OnObject(PREFIX + x)
    case Advertised => Advertised
  }

  lemma SameAnswer(rec: Record, seqNo: nat, env: Members, digest: string, q: Query)
    requires Corresponds(rec, env, digest)
    ensures Matches(FullQuery(q), Row(seqNo, rec)) <==> Wanted(q, env, digest)
  {
    hide ChannelKey, HashKey, IsChannel, Unsigned;
    match q
    case InChannel(x) => PrefixedKey(ChannelKey(env, digest), x);
    case OnObject(x) => PrefixedKey(HashKey(env), x);
    case Advertised =>
  }

  lemma PrefixedKey(key: Option<string>, x: string)
    ensures Prefixed(key) == Some(PREFIX + x) <==> key == Some(x)
  {
    assert (PREFIX + x)[7..] == x;
    if key.Some? { assert (PREFIX + key.value)[7..] == key.value; }
  }

  lemma {:induction false} SameListUpTo(m: Mem, db: Db, q: Query, k: nat)
    requires Alike(m, db) && k <= |m.order|
    ensures Ids(Select(db.rows[..k], FullQuery(q), 0)) == WithPrefix(Filter(m.envelopes, m.order[..k], q))
  {
    hide Wanted, Matches, FullQuery, Ids, WithPrefix, ChannelKey, HashKey;
    if k > 0 {
      SameListUpTo(m, db, q, k - 1);
      assert db.rows[..k][..k - 1] == db.rows[..k - 1] && m.order[..k][..k - 1] == m.order[..k - 1];
      assert Corresponds(db.rows[k - 1].rec, m.envelopes[m.order[k - 1]], m.order[k - 1]);
      SameAnswer(db.rows[k - 1].rec, db.rows[k - 1].seqNo, m.envelopes[m.order[k - 1]], m.order[k - 1], q);
      ListsAppend(Select(db.rows[..k - 1], FullQuery(q), 0), db.rows[k - 1], Filter(m.envelopes, m.order[..k - 1], q),
          m.order[k - 1]);
    }
  }

  lemma ListsAppend(rows: seq<Row>, r: Row, ds: seq<string>, d: string)
    requires Ids(rows) == WithPrefix(ds) && r.rec.id == PREFIX + d
    ensures Ids(rows + [r]) == WithPrefix(ds + [d])
  {
    var a, b := Ids(rows + [r]), WithPrefix(ds + [d]);
    forall i | 0 <= i < |a| ensures a[i] == b[i] {
      if i < |rows| { assert Ids(rows)[i] == WithPrefix(ds)[i]; }
    }
  }

  /** On every accepted history both relays serve the same list for every query. */
  lemma SameLists(c: Suite, history: seq<Accept>, q: Query)
    requires AllGenuine(c, history)
    ensures Ids(Select(Durable(c, EMPTY, history).rows, FullQuery(q), 0)) ==
            WithPrefix(Served(Memory(NOTHING, history), q))
  {
    hide Memory, Durable, Select, Filter, Served, Genuine, Corresponds, FullQuery;
    var m, db := Memory(NOTHING, history), Durable(c, EMPTY, history);
    HistoriesAlike(c, history);
    MemoryIndexed(history);
    SameListUpTo(m, db, q, |m.order|);
    assert db.rows[..|m.order|] == db.rows && m.order[..|m.order|] == m.order;
  }

  /** What a relay accepted from these submissions. */
  function Accepts(c: Suite, bodies: seq<string>): (h: seq<Accept>)
    ensures |h| == |bodies|
    decreases |bodies|
  {
    if bodies == [] then []
    else
      var body := bodies[|bodies| - 1];
      Accepts(c, bodies[..|bodies| - 1]) + [AcceptOf(c, body)]
  }

  function AcceptOf(c: Suite, body: string): Accept {
    match (ParseObject(c.fp, body), ValidateText(c, body))
    case (Some(v), Valid(id, _)) => Accept(v.members, id)
    case _ => Accept([], "")
  }

  lemma AdmittedAccept(c: Suite, cfg: Config, body: string)
    requires Faithful(c.fp) && Judge(c, cfg, body).Admitted?
    ensures var a := AcceptOf(c, body); Genuine(c, a) && Judge(c, cfg, body).rec == Derive(c, a.env, a.id)
  {
    hide Faithful, Parse, PyValidate, Derive, Permits, Utf8Len, NoDup, Sound, Unsigned, Schema, VersionAndType;
    ValidFacts(c, body);
  }

  /** A run of admitted submissions is such a history, and the durable table is the one the run leaves. */
  lemma {:induction false} AdmittedHistory(c: Suite, cfg: Config, bodies: seq<string>)
    requires Faithful(c.fp) && forall i :: 0 <= i < |bodies| ==> Judge(c, cfg, bodies[i]).Admitted?
    ensures AllGenuine(c, Accepts(c, bodies)) && Durable(c, EMPTY, Accepts(c, bodies)) == Run(c, cfg, EMPTY, bodies)
    decreases |bodies|
  {
    hide Faithful, Judge, Genuine, Derive, AcceptOf, Added, Run;
    if bodies != [] {
      var k := |bodies| - 1;
      var init := bodies[..k];
      AdmittedHistory(c, cfg, init);
      AdmittedAccept(c, cfg, bodies[k]);
      assert bodies == init + [bodies[k]];
      RunAppend(c, cfg, EMPTY, init, [bodies[k]]);
      RunOne(c, cfg, Run(c, cfg, EMPTY, init), bodies[k]);
      assert Accepts(c, bodies)[..k] == Accepts(c, init);
    } else {
      RunNone(c, cfg);
    }
  }

  lemma RunNone(c: Suite, cfg: Config)
    ensures Run(c, cfg, EMPTY, []) == EMPTY
  {
  }

  // ---------------------------------------------------------------- offset pages

  datatype OffsetPage = OffsetPage(chunk: seq<string>, next: Option<string>)

  /** page(): None is the reply to a cursor that is not an integer. */
  function PageAt(items: seq<string>, size: Positive, cursor: Option<string>): Option<OffsetPage> {
    match (if cursor == None || cursor == Some("") then Some(0) else PyInt(cursor.value))
    case None => None
    case Some(n) =>
      var start := if n < 0 then 0 else n;
      var chunk :=
        if start >= |items| then []
        else if start + size <= |items| then items[start..start + size]
        else items[start..];
      var next := start + |chunk|;
      Some(OffsetPage(chunk, if next < |items| then Some(NatStr(next)) else None))
  }

  lemma OffsetPageMeans(items: seq<string>, size: Positive, cursor: Option<string>, start: nat)
    requires start <= |items| && (if cursor == None then start == 0 else cursor.value == NatStr(start))
    ensures PageAt(items, size, cursor).Some?
    ensures var p := PageAt(items, size, cursor).value;
            var end := if start + size <= |items| then start + size else |items|;
            p.chunk == items[start..end] && p.next == if end < |items| then Some(NatStr(end)) else None
  {
    hide NatStr, PyInt, DigitsVal;
    IntOfDigits(NatStr(start));
  }

  /** Following the offset cursors of a list reads exactly that list, whatever the page size. */
  method WalkOffsets(items: seq<string>, size: Positive) returns (all: seq<string>)
    ensures all == items
  {
    hide NatStr, PyInt, PageAt;
    all := [];
    var cursor: Option<string> := None;
    while true
      invariant all <= items && (cursor.Some? ==> |all| < |items|)
      invariant if cursor == None then |all| == 0 else cursor.value == NatStr(|all|)
      decreases |items| - |all|
    {
      OffsetPageMeans(items, size, cursor, |all|);
      var page := PageAt(items, size, cursor).value;
      assert all + page.chunk == items[..|all| + |page.chunk|];
      all := all + page.chunk;
      if page.next == None { return; }
      cursor := page.next;
    }
  }

  // ---------------------------------------------------------------- both relays, page by page

  lemma {:induction false} DurableCoherent(c: Suite, history: seq<Accept>)
    ensures Coherent(Durable(c, EMPTY, history))
    decreases |history|
  {
    hide Added, Derive, Coherent;
    if history != [] {
      var k := |history| - 1;
      DurableCoherent(c, history[..k]);
      AddedCoherent(Durable(c, EMPTY, history[..k]), Derive(c, history[k].env, history[k].id));
    } else {
      EmptyCoherent();
    }
  }

  lemma EmptyCoherent()
    ensures Coherent(EMPTY)
  {
  }

  /** On every accepted history, for every query and any two page sizes: the offset pages of the one relay and
      the cursor pages of the other concatenate to the same list. */
  method ReadBoth(c: Suite, history: seq<Accept>, q: Query, memorySize: Positive, durableSize: Positive)
    returns (memory: seq<string>, durable: seq<Row>)
    requires AllGenuine(c, history)
    ensures memory == Served(Memory(NOTHING, history), q) && Ids(durable) == WithPrefix(memory)
  {
    hide Memory, Durable, Select, Served, Genuine, FullQuery, Coherent, Ids, WithPrefix;
    memory := WalkOffsets(Served(Memory(NOTHING, history), q), memorySize);
    var db := Durable(c, EMPTY, history);
    DurableCoherent(c, history);
    var last;
    durable, last := Traverse(i => db, durableSize, FullQuery(q), 0);
    SameLists(c, history, q);
  }
}
