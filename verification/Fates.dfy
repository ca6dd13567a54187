/** The counters of the federation worker, said of what was gathered. */
module Fates {
  import opened Protocol
  import opened Validation
  import opened Relay
  import opened RelayRuns
  import opened Federation

  /** What becomes of one gathered item. */
  datatype Fate = Unusable | Repeated | Rejected | Duplicate | Forwarded

  /** Decided by the item, the ids before it, the link, and the tables before the sync. */
  function FateOf(c: Suite, cfg: Config, db: Db, gathered: seq<string>, net: nat -> Link, k: nat): Fate
    requires k < |gathered|
  {
    var v := ValidateText(c, gathered[k]);
    if !v.Valid? then Unusable
    else if v.id in ValidIds(c, gathered[..k]) then Repeated
    else if net(k).Dropped? || net(k).Unanswered? || !Judge(c, cfg, gathered[k]).Admitted? then Rejected
    else if HasId(db.rows, v.id) && net(k).Answered? then Duplicate
    else Forwarded
  }

  function Having(c: Suite, cfg: Config, db: Db, gathered: seq<string>, net: nat -> Link, f: Fate): set<nat> {
    set k: nat | k < |gathered| && FateOf(c, cfg, db, gathered, net, k) == f
  }

  lemma FateEarlier(c: Suite, cfg: Config, db: Db, gathered: seq<string>, net: nat -> Link, k: nat)
    requires k < |gathered| - 1
    ensures FateOf(c, cfg, db, gathered, net, k) == FateOf(c, cfg, db, gathered[..|gathered| - 1], net, k)
  {
    hide ValidateText, ValidIds, Judge, HasId;
    assert gathered[..|gathered| - 1][..k] == gathered[..k];
  }

  lemma HavingNext(c: Suite, cfg: Config, db: Db, gathered: seq<string>, net: nat -> Link, f: Fate)
    requires gathered != []
    ensures var m := |gathered| - 1;
            |Having(c, cfg, db, gathered, net, f)| == |Having(c, cfg, db, gathered[..m], net, f)|
                + if FateOf(c, cfg, db, gathered, net, m) == f then 1 else 0
  {
    hide FateOf;
    var m := |gathered| - 1;
    var init := gathered[..m];
    forall k: nat | k < m ensures FateOf(c, cfg, db, gathered, net, k) == FateOf(c, cfg, db, init, net, k) {
      FateEarlier(c, cfg, db, gathered, net, k);
    }
    var all, before := Having(c, cfg, db, gathered, net, f), Having(c, cfg, db, init, net, f);
    if FateOf(c, cfg, db, gathered, net, m) == f {
      assert all == before + {m};
    } else {
      assert all == before;
    }
  }

  /** The tables gain no id that has not been met. */
  lemma NotYetHeld(c: Suite, cfg: Config, db: Db, gathered: seq<string>, net: nat -> Link, id: string)
    requires id !in ValidIds(c, gathered)
    ensures HasId(Steps(c, cfg, db, gathered, net).db.rows, id) <==> HasId(db.rows, id)
  {
    hide ValidateText, Judge, HasId, Steps, Run;
    var p := Steps(c, cfg, db, gathered, net);
    SendsOnlyValid(c, cfg, db, gathered, net);
    RunStoresAdmitted(c, cfg, db, p.sent, id);
    if Submitted(c, cfg, p.sent, id) { SubmittedMet(c, cfg, p.sent, gathered, id); }
  }

  lemma SubmittedMet(c: Suite, cfg: Config, sent: seq<string>, gathered: seq<string>, id: string)
    requires Submitted(c, cfg, sent, id) && forall raw :: raw in sent ==> raw in gathered
    ensures id in ValidIds(c, gathered)
  {
    hide ValidateText, Judge;
    var k :| 0 <= k < |sent| && Judge(c, cfg, sent[k]).Admitted? && Judge(c, cfg, sent[k]).rec.id == id;
    AdmittedIsValid(c, cfg, sent[k]);
    assert sent[k] in gathered;
    var j :| 0 <= j < |gathered| && gathered[j] == sent[k];
  }

  /** How much one item adds to each counter. */
  lemma StepCounts(c: Suite, cfg: Config, db: Db, gathered: seq<string>, net: nat -> Link)
    requires gathered != []
    ensures var m := |gathered| - 1;
            var n, q := Steps(c, cfg, db, gathered[..m], net).count, Steps(c, cfg, db, gathered, net).count;
            var f := FateOf(c, cfg, db, gathered, net, m);
            && q.valid == n.valid + (if f != Unusable then 1 else 0)
            && q.invalid == n.invalid + (if f == Unusable then 1 else 0)
            && q.forwarded == n.forwarded + (if f == Forwarded then 1 else 0)
            && q.duplicates == n.duplicates + (if f == Duplicate then 1 else 0)
            && q.rejected == n.rejected + (if f == Rejected then 1 else 0)
  {
    hide ValidateText, ValidIds, Judge, HasId;
    var m := |gathered| - 1;
    var init, v := gathered[..m], ValidateText(c, gathered[m]);
    Accounts(c, cfg, db, init, net);
    if v.Valid? && v.id !in ValidIds(c, init) {
      NotYetHeld(c, cfg, db, init, net, v.id);
      if Judge(c, cfg, gathered[m]).Admitted? { AdmittedIsValid(c, cfg, gathered[m]); }
    }
  }

  /** Over every link, each counter is the number of gathered items with that fate. */
  lemma {:induction false} CountersMean(c: Suite, cfg: Config, db: Db, gathered: seq<string>, net: nat -> Link)
    ensures var n := Steps(c, cfg, db, gathered, net).count;
            && n.valid + |Having(c, cfg, db, gathered, net, Unusable)| == |gathered|
            && n.invalid == |Having(c, cfg, db, gathered, net, Unusable)|
            && n.forwarded == |Having(c, cfg, db, gathered, net, Forwarded)|
            && n.duplicates == |Having(c, cfg, db, gathered, net, Duplicate)|
            && n.rejected == |Having(c, cfg, db, gathered, net, Rejected)|
    decreases |gathered|
  {
    hide FateOf, Steps, Having;
    if gathered == [] {
      NothingCounted(c, cfg, db, net);
    } else {
      CountersMean(c, cfg, db, gathered[..|gathered| - 1], net);
      StepCounts(c, cfg, db, gathered, net);
      HavingNext(c, cfg, db, gathered, net, Unusable);
      HavingNext(c, cfg, db, gathered, net, Forwarded);
      HavingNext(c, cfg, db, gathered, net, Duplicate);
      HavingNext(c, cfg, db, gathered, net, Rejected);
    }
  }

  lemma NothingCounted(c: Suite, cfg: Config, db: Db, net: nat -> Link)
    ensures Steps(c, cfg, db, [], net).count == ZERO
    ensures forall f :: Having(c, cfg, db, [], net, f) == {}
  {
  }
}
