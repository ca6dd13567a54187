/** A round of channel syncs among any number of honest relays. */
module Rounds {
  import opened Decimals
  import opened Bytes
  import opened Protocol
  import opened Documents
  import opened Relay
  import opened RelayRuns
  import opened Federation
  import opened Convergence

  /** One sync of the channel from a relay to a relay over a link. */
  datatype Pull = Pull(src: nat, dst: nat, net: nat -> Link)

  function Pulled(c: Suite, dump: Dump, nodes: seq<Node>, ch: string, p: Pull): seq<Node> {
    if p.src >= |nodes| || p.dst >= |nodes| then nodes
    else
      var to := nodes[p.dst];
      var items := ChannelItems(c, dump, nodes[p.src].db, ch);
      nodes[p.dst := to.(db := Steps(c, to.cfg, to.db, items, p.net).db)]
  }

  function Round(c: Suite, dump: Dump, nodes: seq<Node>, ch: string, pulls: seq<Pull>): seq<Node>
    decreases |pulls|
  {
    if pulls == [] then nodes else Round(c, dump, Pulled(c, dump, nodes, ch, pulls[0]), ch, pulls[1..])
  }

  // ---------------------------------------------------------------- the setting

  /** Honest relays without local restrictions, whose rows keep their value on the wire and fit everywhere, and no
      two of which hold different U under one id. */
  ghost predicate Compatible(c: Suite, dump: Dump, nodes: seq<Node>) {
    && Faithful(c.fp) && AllOk(c, nodes)
    && (forall a :: 0 <= a < |nodes| ==> Open(nodes[a].cfg) && KeepsValues(c, dump, nodes[a].db.rows))
    && (forall a, b :: 0 <= a < |nodes| && 0 <= b < |nodes| ==> FitsIn(c, dump, nodes[a], nodes[b]))
    && (forall a, b :: 0 <= a < |nodes| && 0 <= b < |nodes| ==> NoClash(c, nodes[a].db, nodes[b].db))
  }

  ghost predicate FitsIn(c: Suite, dump: Dump, from: Node, to: Node) { Fits(c, to.cfg, dump, from.db.rows) }

  /** A row whose record some relay held at the start. */
  ghost predicate Original(start: seq<Node>, r: Row) {
    exists a, i :: 0 <= a < |start| && 0 <= i < |start[a].db.rows| && start[a].db.rows[i].rec == r.rec
  }

  /** In the course of a round: the same relays, all in order, with no other records. */
  ghost predicate Within(c: Suite, start: seq<Node>, nodes: seq<Node>) {
    && |nodes| == |start| && AllOk(c, nodes)
    && (forall a :: 0 <= a < |nodes| ==> nodes[a].cfg == start[a].cfg)
    && (forall a, i :: 0 <= a < |nodes| && 0 <= i < |nodes[a].db.rows| ==> Original(start, nodes[a].db.rows[i]))
  }

  lemma StartsWithin(c: Suite, start: seq<Node>)
    requires AllOk(c, start)
    ensures Within(c, start, start)
  {
    hide AllOk;
  }

  lemma OriginalRow(c: Suite, dump: Dump, start: seq<Node>, r: Row, b: nat)
    requires Compatible(c, dump, start) && Original(start, r) && b < |start|
    ensures KeepsValue(c, dump, r) && Utf8Len(WireText(c, dump, r)) <= start[b].cfg.maxRecord
  {
    hide Faithful, AllOk, Open, NoClash, Utf8Len, ParseObject;
    var a, i :| 0 <= a < |start| && 0 <= i < |start[a].db.rows| && start[a].db.rows[i].rec == r.rec;
    assert FitsIn(c, dump, start[a], start[b]);
    assert KeepsValue(c, dump, start[a].db.rows[i]);
  }

  lemma OriginalsSeparate(c: Suite, dump: Dump, start: seq<Node>, d: Row, s: Row)
    requires Compatible(c, dump, start) && Original(start, d) && Original(start, s) && d.rec.id == s.rec.id
    ensures Separates(c, TextOfU(c, d.rec.envelope), TextOfU(c, s.rec.envelope))
  {
    hide Faithful, AllOk, Open, KeepsValues, FitsIn, Separates, TextOfU;
    var a, i :| 0 <= a < |start| && 0 <= i < |start[a].db.rows| && start[a].db.rows[i].rec == d.rec;
    var b, j :| 0 <= b < |start| && 0 <= j < |start[b].db.rows| && start[b].db.rows[j].rec == s.rec;
    assert NoClash(c, start[a].db, start[b].db);
  }

  /** Any two relays in the course of a round are in the setting of a channel sync. */
  lemma PairSetting(c: Suite, dump: Dump, start: seq<Node>, nodes: seq<Node>, p: Pull)
    requires Compatible(c, dump, start) && Within(c, start, nodes) && Arrives(p.net)
    requires p.src < |nodes| && p.dst < |nodes|
    ensures var src, dst := nodes[p.src], nodes[p.dst];
            && Setting(c, dst.cfg, src.cfg, src.db, dst.db, dump, p.net)
            && Open(dst.cfg) && Fits(c, dst.cfg, dump, src.db.rows)
  {
    hide Compatible, Faithful, Ok, Original, KeepsValue, Arrives, Separates, Utf8Len, WireText, Open;
    var src, dst := nodes[p.src], nodes[p.dst];
    forall i | 0 <= i < |src.db.rows|
      ensures KeepsValue(c, dump, src.db.rows[i]) && Utf8Len(WireText(c, dump, src.db.rows[i])) <= dst.cfg.maxRecord
    {
      OriginalRow(c, dump, start, src.db.rows[i], p.dst);
    }
    forall i, j | 0 <= i < |dst.db.rows| && 0 <= j < |src.db.rows| && dst.db.rows[i].rec.id == src.db.rows[j].rec.id
      ensures Separates(c, TextOfU(c, dst.db.rows[i].rec.envelope), TextOfU(c, src.db.rows[j].rec.envelope))
    {
      OriginalsSeparate(c, dump, start, dst.db.rows[i], src.db.rows[j]);
    }
    CompatibleGives(c, dump, start, p.dst);
  }

  lemma CompatibleGives(c: Suite, dump: Dump, start: seq<Node>, a: nat)
    requires Compatible(c, dump, start) && a < |start|
    ensures Faithful(c.fp) && Open(start[a].cfg) && AllOk(c, start)
  {
    hide Faithful, AllOk, Open, KeepsValues, FitsIn, NoClash;
  }

  // ---------------------------------------------------------------- one sync of a round

  lemma PulledRows(c: Suite, dump: Dump, start: seq<Node>, nodes: seq<Node>, ch: string, p: Pull)
    requires Compatible(c, dump, start) && Within(c, start, nodes) && Arrives(p.net)
    requires p.src < |nodes| && p.dst < |nodes|
    ensures Within(c, start, Pulled(c, dump, nodes, ch, p))
  {
    hide Compatible, Faithful, Ok, Original, Arrives, Setting, Fits, Open, Steps, ChannelItems, Run;
    PairSetting(c, dump, start, nodes, p);
    CompatibleGives(c, dump, start, p.dst);
    var src, dst := nodes[p.src], nodes[p.dst];
    var items := ChannelItems(c, dump, src.db, ch);
    var after := Steps(c, dst.cfg, dst.db, items, p.net);
    SendsOnlyValid(c, dst.cfg, dst.db, items, p.net);
    RunKeeps(c, dst.cfg, dst.db, after.sent);
    forall i | 0 <= i < |after.db.rows| ensures Original(start, after.db.rows[i]) {
      AfterRows(c, dst.cfg, src.cfg, src.db, dst.db, dump, p.net, ch, after.db.rows[i]);
      RowOriginal(c, start, nodes, p, after.db.rows[i]);
    }
  }

  lemma RowOriginal(c: Suite, start: seq<Node>, nodes: seq<Node>, p: Pull, r: Row)
    requires Within(c, start, nodes) && p.src < |nodes| && p.dst < |nodes|
    requires r in nodes[p.dst].db.rows || exists m ::
            0 <= m < |nodes[p.src].db.rows| && nodes[p.src].db.rows[m].rec == r.rec
    ensures Original(start, r)
  {
    hide AllOk;
    if r in nodes[p.dst].db.rows {
      var j :| 0 <= j < |nodes[p.dst].db.rows| && nodes[p.dst].db.rows[j] == r;
      assert Original(start, nodes[p.dst].db.rows[j]);
    } else {
      var m :| 0 <= m < |nodes[p.src].db.rows| && nodes[p.src].db.rows[m].rec == r.rec;
      assert Original(start, nodes[p.src].db.rows[m]);
    }
  }

  /** The destination's set becomes the union of the two; no other relay changes. */
  lemma PulledSets(c: Suite, dump: Dump, start: seq<Node>, nodes: seq<Node>, ch: string, p: Pull)
    requires Compatible(c, dump, start) && Within(c, start, nodes) && Arrives(p.net)
    requires p.src < |nodes| && p.dst < |nodes|
    ensures var after := Pulled(c, dump, nodes, ch, p);
            && |after| == |nodes|
            && ChannelSet(after[p.dst].db, ch) == ChannelSet(nodes[p.dst].db, ch) + ChannelSet(nodes[p.src].db, ch)
            && forall a :: 0 <= a < |nodes| && a != p.dst ==> after[a] == nodes[a]
  {
    hide Compatible, Within, Arrives, Setting, Fits, Open, Steps, ChannelItems, Admissible, ChannelSet;
    PairSetting(c, dump, start, nodes, p);
    var src, dst := nodes[p.src], nodes[p.dst];
    Converges(c, dst.cfg, src.cfg, src.db, dst.db, dump, p.net, ch);
    OpenAdmitsAll(c, dst.cfg, src.cfg, src.db, dst.db, dump, p.net, ch);
  }

  // ---------------------------------------------------------------- a round

  /** The ids of the channel that some relay lists. */
  function Union(nodes: seq<Node>, ch: string): set<string> {
    if nodes == [] then {} else ChannelSet(nodes[0].db, ch) + Union(nodes[1..], ch)
  }

  lemma {:induction false} UnionMeans(nodes: seq<Node>, ch: string, id: string)
    ensures id in Union(nodes, ch) <==> exists a :: 0 <= a < |nodes| && id in ChannelSet(nodes[a].db, ch)
  {
    hide ChannelSet;
    if nodes != [] {
      UnionMeans(nodes[1..], ch, id);
      if a :| 0 <= a < |nodes[1..]| && id in ChannelSet(nodes[1..][a].db, ch) { assert nodes[a + 1] == nodes[1..][a]; }
      if a :| 0 < a < |nodes| && id in ChannelSet(nodes[a].db, ch) { assert nodes[1..][a - 1] == nodes[a]; }
    }
  }

  ghost predicate Possible(nodes: seq<Node>, pulls: seq<Pull>) {
    forall k :: 0 <= k < |pulls| ==> pulls[k].src < |nodes| && pulls[k].dst < |nodes| && Arrives(pulls[k].net)
  }

  /** An id a relay lists after some syncs is one that some relay listed before. */
  lemma PulledUnion(c: Suite, dump: Dump, start: seq<Node>, nodes: seq<Node>, ch: string, p: Pull, id: string)
    requires Compatible(c, dump, start) && Within(c, start, nodes) && Arrives(p.net)
    requires p.src < |nodes| && p.dst < |nodes|
    ensures id in Union(Pulled(c, dump, nodes, ch, p), ch) ==> id in Union(nodes, ch)
  {
    hide Compatible, Within, Arrives, Pulled, ChannelSet, Union;
    var after := Pulled(c, dump, nodes, ch, p);
    PulledSets(c, dump, start, nodes, ch, p);
    UnionMeans(after, ch, id);
    UnionMeans(nodes, ch, id);
    if a :| 0 <= a < |after| && id in ChannelSet(after[a].db, ch) {
      if a == p.dst { assert id in ChannelSet(nodes[p.dst].db, ch) || id in ChannelSet(nodes[p.src].db, ch); }
    }
  }

  /** Syncs in any order: sets only grow, towards what each sync carried, and never beyond the union. */
  lemma {:induction false} RoundSets(c: Suite, dump: Dump, start: seq<Node>, nodes: seq<Node>, ch: string,
      pulls: seq<Pull>)
    requires Compatible(c, dump, start) && Within(c, start, nodes) && Possible(nodes, pulls)
    ensures var after := Round(c, dump, nodes, ch, pulls);
            && |after| == |nodes|
            && (forall b :: 0 <= b < |nodes| ==> ChannelSet(nodes[b].db, ch) <= ChannelSet(after[b].db, ch))
            && (forall k :: 0 <= k < |pulls| ==>
                ChannelSet(nodes[pulls[k].src].db, ch) <= ChannelSet(after[pulls[k].dst].db, ch))
            && (forall id :: id in Union(after, ch) ==> id in Union(nodes, ch))
    decreases |pulls|
  {
    hide Compatible, Within, Arrives, Pulled, ChannelSet, Union;
    if pulls != [] {
      var p := pulls[0];
      var next := Pulled(c, dump, nodes, ch, p);
      PulledRows(c, dump, start, nodes, ch, p);
      PulledSets(c, dump, start, nodes, ch, p);
      forall id ensures id in Union(next, ch) ==> id in Union(nodes, ch) {
        PulledUnion(c, dump, start, nodes, ch, p, id);
      }
      RoundSets(c, dump, start, next, ch, pulls[1..]);
      CarriedOn(c, dump, nodes, next, ch, pulls);
    }
  }

  lemma CarriedOn(c: Suite, dump: Dump, nodes: seq<Node>, next: seq<Node>, ch: string, pulls: seq<Pull>)
    requires pulls != [] && Possible(nodes, pulls) && |next| == |nodes|
    requires forall b :: 0 <= b < |nodes| ==> ChannelSet(nodes[b].db, ch) <= ChannelSet(next[b].db, ch)
    requires ChannelSet(nodes[pulls[0].src].db, ch) <= ChannelSet(next[pulls[0].dst].db, ch)
    requires var after := Round(c, dump, next, ch, pulls[1..]);
             && |after| == |next|
             && (forall b :: 0 <= b < |next| ==> ChannelSet(next[b].db, ch) <= ChannelSet(after[b].db, ch))
             && (forall k :: 0 <= k < |pulls[1..]| ==>
                 ChannelSet(next[pulls[1..][k].src].db, ch) <= ChannelSet(after[pulls[1..][k].dst].db, ch))
    ensures var after := Round(c, dump, next, ch, pulls[1..]);
            forall k :: 0 <= k < |pulls| ==>
            ChannelSet(nodes[pulls[k].src].db, ch) <= ChannelSet(after[pulls[k].dst].db, ch)
  {
    hide ChannelSet, Round, Arrives;
    forall k | 0 < k < |pulls|
      ensures ChannelSet(nodes[pulls[k].src].db, ch) <=
              ChannelSet(Round(c, dump, next, ch, pulls[1..])[pulls[k].dst].db, ch)
    {
      assert pulls[1..][k - 1] == pulls[k];
    }
  }

  /** Every relay is synced to every other at some point. */
  ghost predicate AllPairs(n: nat, pulls: seq<Pull>) {
    forall a, b :: 0 <= a < n && 0 <= b < n && a != b ==> Carries(pulls, a, b)
  }

  ghost predicate Carries(pulls: seq<Pull>, a: nat, b: nat) {
    exists k :: 0 <= k < |pulls| && pulls[k].src == a && pulls[k].dst == b
  }

  /** One round over all pairs, in any order: every relay ends with the union of what all of them listed. */
  lemma RoundConverges(c: Suite, dump: Dump, nodes: seq<Node>, ch: string, pulls: seq<Pull>, b: nat)
    requires Compatible(c, dump, nodes) && Possible(nodes, pulls) && AllPairs(|nodes|, pulls) && b < |nodes|
    ensures var after := Round(c, dump, nodes, ch, pulls);
            |after| == |nodes| && ChannelSet(after[b].db, ch) == Union(nodes, ch)
  {
    hide Compatible, Within, Possible, Round, ChannelSet, Union;
    CompatibleGives(c, dump, nodes, b);
    StartsWithin(c, nodes);
    RoundSets(c, dump, nodes, nodes, ch, pulls);
    var after := Round(c, dump, nodes, ch, pulls);
    forall id ensures id in ChannelSet(after[b].db, ch) <==> id in Union(nodes, ch) {
      UnionMeans(nodes, ch, id);
      UnionMeans(after, ch, id);
      if a :| 0 <= a < |nodes| && id in ChannelSet(nodes[a].db, ch) {
        if a != b {
          assert Carries(pulls, a, b);
          var k :| 0 <= k < |pulls| && pulls[k].src == a && pulls[k].dst == b;
        }
      }
    }
  }
}
