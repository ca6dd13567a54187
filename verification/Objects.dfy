/** The objects a polling client stores, said of the assertions in the texts it was served. */
module Objects {
  import opened Values
  import opened Decimals
  import opened Bytes
  import opened RoundTrip
  import opened Documents
  import opened Protocol
  import opened Validation
  import opened Federation
  import opened Polling
  import opened Assertions
  import opened Lists

  /** Data with this hash comes from this locator. */
  predicate Serves(web: Web, h: string, loc: string, data: seq<Byte>) {
    web.fetch(loc) == Some(data) && web.objectId(data) == h
  }

  /** The first locator that serves the hash serves this. */
  ghost predicate FirstServed(web: Web, h: string, locs: seq<string>, data: seq<Byte>) {
    exists i: nat :: i < |locs| && Serves(web, h, locs[i], data) && NoneServes(web, h, locs[..i])
  }

  ghost predicate NoneServes(web: Web, h: string, locs: seq<string>) {
    forall j: nat, data :: j < |locs| ==> !Serves(web, h, locs[j], data)
  }

  lemma {:induction false} MatchIsFirst(web: Web, h: string, locs: seq<string>, data: seq<Byte>)
    ensures FirstMatch(web, h, Strs(locs).elems) == Some(data) <==> FirstServed(web, h, locs, data)
    ensures FirstMatch(web, h, Strs(locs).elems) == None <==> NoneServes(web, h, locs)
  {
    if locs == [] {
      assert Strs(locs).elems == [];
    } else {
      var vs := Strs(locs).elems;
      assert vs[0] == Str(locs[0]) && vs[1..] == Strs(locs[1..]).elems;
      MatchIsFirst(web, h, locs[1..], data);
      FirstSplits(web, h, locs, data);
      NoneSplits(web, h, locs);
      ServedOnce(web, h, locs[0]);
    }
  }

  lemma ServedOnce(web: Web, h: string, loc: string)
    ensures Fetched(web, h, Str(loc)) == None <==> forall data :: !Serves(web, h, loc, data)
    ensures forall data :: Fetched(web, h, Str(loc)) == Some(data) <==> Serves(web, h, loc, data)
  {
    if web.fetch(loc).Some? && web.objectId(web.fetch(loc).value) == h {
      assert Serves(web, h, loc, web.fetch(loc).value);
    }
  }

  lemma NoneSplits(web: Web, h: string, locs: seq<string>)
    requires locs != []
    ensures NoneServes(web, h, locs) <==>
            (forall data :: !Serves(web, h, locs[0], data)) && NoneServes(web, h, locs[1..])
  {
    hide Serves;
    if NoneServes(web, h, locs[1..]) && forall data :: !Serves(web, h, locs[0], data) {
      forall j: nat, data | j < |locs| ensures !Serves(web, h, locs[j], data) {
        if j > 0 { assert locs[j] == locs[1..][j - 1]; }
      }
    }
    if NoneServes(web, h, locs) {
      forall j: nat, data | j < |locs[1..]| ensures !Serves(web, h, locs[1..][j], data) {
        assert locs[1..][j] == locs[j + 1];
      }
    }
  }

  lemma FirstSplits(web: Web, h: string, locs: seq<string>, data: seq<Byte>)
    requires locs != []
    ensures FirstServed(web, h, locs, data) <==>
            || Serves(web, h, locs[0], data)
            || ((forall d :: !Serves(web, h, locs[0], d)) && FirstServed(web, h, locs[1..], data))
  {
    hide Serves, NoneServes;
    NoneAtAll(web, h);
    if Serves(web, h, locs[0], data) { assert locs[..0] == []; }
    if i: nat :| i < |locs| && Serves(web, h, locs[i], data) && NoneServes(web, h, locs[..i]) {
      if i > 0 {
        NoneSplits(web, h, locs[..i]);
        assert locs[..i][1..] == locs[1..][..i - 1] && locs[1..][i - 1] == locs[i];
      }
    }
    if (forall d :: !Serves(web, h, locs[0], d)) && FirstServed(web, h, locs[1..], data) {
      var i: nat :| i < |locs[1..]| && Serves(web, h, locs[1..][i], data) && NoneServes(web, h, locs[1..][..i]);
      NoneSplits(web, h, locs[..i + 1]);
      assert locs[..i + 1][1..] == locs[1..][..i] && locs[1..][i] == locs[i + 1];
    }
  }

  lemma NoneAtAll(web: Web, h: string)
    ensures NoneServes(web, h, [])
  {
  }

  // ---------------------------------------------------------------- the object of an assertion

  /** A pointer names the object by its hash, and one of its locators serves it. */
  ghost predicate Offers(web: Web, a: Assertion, h: string, data: seq<Byte>) {
    && a.kind.Pointer? && h == IdText(a.kind.ref.hash)
    && FirstServed(web, h, a.kind.ref.locators, data)
  }

  lemma PointsAt(c: Suite, raw: string, a: Assertion)
    requires ParseObject(c.fp, raw).Some? && Holds(c, raw, a)
    ensures Wanted(c, raw) == if a.kind.Pointer? then Some(IdText(a.kind.ref.hash)) else None
    ensures a.kind.Pointer? ==>
            Locs(Field(ParseObject(c.fp, raw).value.members, "ref")) == Strs(a.kind.ref.locators).elems
  {
    hide Lookup, IdText, PlainField, WritesRef, Names, IsStrings, IsIdStr, Parse;
    var obj := ParseObject(c.fp, raw).value.members;
    FieldsAt(obj, a);
    if a.kind.Pointer? { RefWritten(Lookup(obj, "ref").value, a.kind.ref); }
  }

  lemma FoundMeans(c: Suite, web: Web, raw: string, a: Assertion, h: string, data: seq<Byte>)
    requires ParseObject(c.fp, raw).Some? && Holds(c, raw, a)
    ensures Wanted(c, raw) == Some(h) && Found(c, web, raw) == Some(data) <==> Offers(web, a, h, data)
  {
    hide Parse, Writes, FirstMatch, FirstServed, IdText, Strs, Locs, Wanted;
    PointsAt(c, raw, a);
    if a.kind.Pointer? { MatchIsFirst(web, h, a.kind.ref.locators, data); }
  }

  /** What a text brings is the object of the assertion it holds. */
  lemma BringsMeans(c: Suite, web: Web, k: Known, raw: string, a: Assertion, h: string)
    requires Holds(c, raw, a) && ValidateText(c, raw).Valid?
    ensures Brings(c, web, k, raw, h) <==>
            ValidateText(c, raw).id !in k.seen && exists data :: Offers(web, a, h, data)
  {
    hide PyValidate, Parse, Writes, Found, Wanted, Offers;
    if Found(c, web, raw).Some? { FoundMeans(c, web, raw, a, h, Found(c, web, raw).value); }
    if data :| Offers(web, a, h, data) { FoundMeans(c, web, raw, a, h, data); }
  }

  /** The first valid text of an id that was not seen holds a pointer to this object, and a locator serves it. */
  ghost predicate Offered(c: Suite, web: Web, k: Known, texts: seq<string>, h: string) {
    exists t, a, data ::
      && t in Firsts(c, texts) && ValidateText(c, t).Valid? && ValidateText(c, t).id !in k.seen
      && Holds(c, t, a) && Offers(web, a, h, data)
  }

  lemma OfferedMeans(c: Suite, web: Web, k: Known, texts: seq<string>, h: string)
    requires Faithful(c.fp)
    ensures Offered(c, web, k, texts, h) <==> exists t :: t in Firsts(c, texts) && Brings(c, web, k, t, h)
  {
    hide Faithful, ValidateText, Holds, Offers, Firsts, Wanted, Found;
    forall t, a | ValidateText(c, t).Valid? && Holds(c, t, a)
      ensures Brings(c, web, k, t, h) <==>
              ValidateText(c, t).id !in k.seen && exists data :: Offers(web, a, h, data)
    {
      BringsMeans(c, web, k, t, a, h);
    }
    if t :| t in Firsts(c, texts) && Brings(c, web, k, t, h) {
      HoldsOne(c, t);
      var a :| Holds(c, t, a);
      var data :| Offers(web, a, h, data);
    }
  }

  /** The objects listed after a completed poll, said of the assertions. */
  lemma ObjectsMean(c: Suite, web: Web, k: Known, events: seq<Polling.Event>, h: string)
    requires Faithful(c.fp) && NoRepeats(k.seen) && AllDump(c, events) && AllFine(events)
    ensures h in Saved(k, Polled(c, web, k, events)).objects <==>
            h in k.objects || Offered(c, web, k, Texts(events), h)
  {
    hide Faithful, Polled, AllFine, NoRepeats, Dumps, Brings, Firsts, Offered;
    ObjectsAfter(c, web, k, events, h);
    OfferedMeans(c, web, k, Texts(events), h);
  }

  // ---------------------------------------------------------------- the lines of the report

  /** The first valid text of the id, and whether its object was found. */
  ghost predicate Reports(c: Suite, web: Web, texts: seq<string>, id: string, stored: bool) {
    exists t ::
      && t in Firsts(c, texts) && ValidateText(c, t).Valid? && ValidateText(c, t).id == id
      && Found(c, web, t).Some? == stored
  }

  function InvalidItems(c: Suite, texts: seq<string>): set<nat> {
    set k: nat | k < |texts| && !ValidateText(c, texts[k]).Valid?
  }

  lemma InvalidNext(c: Suite, texts: seq<string>)
    requires texts != []
    ensures var m := |texts| - 1;
            |InvalidItems(c, texts)| ==
            |InvalidItems(c, texts[..m])| + if ValidateText(c, texts[m]).Valid? then 0 else 1
  {
    hide ValidateText;
    var m := |texts| - 1;
    var all, before := InvalidItems(c, texts), InvalidItems(c, texts[..m]);
    if ValidateText(c, texts[m]).Valid? {
      assert all == before;
    } else {
      assert all == before + {m};
    }
  }

  lemma ReportsNext(c: Suite, web: Web, texts: seq<string>, id: string, stored: bool)
    requires texts != []
    ensures var init, raw := texts[..|texts| - 1], texts[|texts| - 1];
            var v := ValidateText(c, raw);
            Reports(c, web, texts, id, stored) <==>
            || Reports(c, web, init, id, stored)
            || (v.Valid? && v.id !in ValidIds(c, init) && v.id == id && Found(c, web, raw).Some? == stored)
  {
    hide ValidateText, ValidIds, Found;
    var init, raw := texts[..|texts| - 1], texts[|texts| - 1];
    if ValidateText(c, raw).Valid? && ValidateText(c, raw).id !in ValidIds(c, init) {
      assert Firsts(c, texts) == Firsts(c, init) + [raw];
      assert raw in Firsts(c, texts);
      forall t ensures t in Firsts(c, texts) <==> t in Firsts(c, init) || t == raw {}
    }
  }

  /** The lines so far name the ids met so far. */
  ghost predicate Lines(c: Suite, web: Web, k: Known, texts: seq<string>, fs: seq<Finding>, id: string, stored: bool) {
    && (Fresh(id, stored) in fs <==> id !in k.seen && Reports(c, web, texts, id, stored))
    && (Again(id) in fs <==> id in k.seen && id in ValidIds(c, texts))
    && RefusedCount(fs) == |InvalidItems(c, texts)|
  }

  lemma LinesNext(c: Suite, web: Web, k: Known, p: Poll, texts: seq<string>, id: string, stored: bool)
    requires texts != [] && p.processed == ValidIds(c, texts[..|texts| - 1])
    requires forall i :: i in p.known.seen <==> i in k.seen || i in p.processed
    requires Lines(c, web, k, texts[..|texts| - 1], p.findings, id, stored)
    ensures Lines(c, web, k, texts, Considered(c, web, p, texts[|texts| - 1]).findings, id, stored)
  {
    hide ValidateText, ValidIds, Found, Reports, InvalidItems, Learn;
    var raw := texts[|texts| - 1];
    ValidIdsNext(c, texts);
    InvalidNext(c, texts);
    ReportsNext(c, web, texts, id, stored);
    var q := Considered(c, web, p, raw);
    if |q.findings| > |p.findings| { assert q.findings[..|q.findings| - 1] == p.findings; }
  }

  lemma {:induction false} LinesLearned(c: Suite, web: Web, k: Known, texts: seq<string>, id: string, stored: bool)
    requires NoRepeats(k.seen)
    ensures Lines(c, web, k, texts, Learned(c, web, k, texts).findings, id, stored)
    decreases |texts|
  {
    hide ValidateText, Considered, ValidIds, NoRepeats, Lines;
    if texts == [] {
      NoLines(c, web, k, id, stored);
    } else {
      var m := |texts| - 1;
      LinesLearned(c, web, k, texts[..m], id, stored);
      SeenLearned(c, web, k, texts[..m]);
      LinesNext(c, web, k, Learned(c, web, k, texts[..m]), texts, id, stored);
    }
  }

  lemma NoLines(c: Suite, web: Web, k: Known, id: string, stored: bool)
    ensures Lines(c, web, k, [], [], id, stored)
  {
    assert InvalidItems(c, []) == {} && ValidIds(c, []) == {};
  }

  /** The report of a completed poll: a new id with whether its object was found, a known id as known, and each
      item that is not valid. */
  lemma ReportMeans(c: Suite, web: Web, k: Known, events: seq<Polling.Event>, id: string, stored: bool)
    requires NoRepeats(k.seen) && AllDump(c, events) && AllFine(events)
    ensures var course := Polled(c, web, k, events);
            course.Going? && Lines(c, web, k, Texts(events), course.p.findings, id, stored)
  {
    hide Polled, Learned, AllFine, NoRepeats, Dumps, Lines;
    CompletesIff(c, web, k, events);
    LinesLearned(c, web, k, Texts(events), id, stored);
  }
}
