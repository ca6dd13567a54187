/** The federation worker: revalidate what any source serves, submit it to a destination, count what happened. */
module Federation {
  import opened Values
  import opened Decimals
  import opened Bytes
  import opened Protocol
  import opened Validation
  import opened Relay
  import opened RelayRuns

  /** What became of one submission: a reply came back, the request was lost, only the reply was lost, or the
      reply came with a body that cannot be read. */
  datatype Link = Answered | Dropped | Unanswered | Unreadable

  datatype Counters = Counters(valid: nat, invalid: nat, forwarded: nat, duplicates: nat, rejected: nat)

  const ZERO := Counters(0, 0, 0, 0, 0)

  /** The worker between two items: the destination, the ids already handled, the counters, and what reached
      the destination so far. */
  datatype Progress = Progress(db: Db, processed: set<string>, count: Counters, sent: seq<string>)

  /** A status other than 200 counts as rejected; of an accepted submission only a body that says so makes a
      duplicate. */
  function Counted(c: Suite, cfg: Config, db: Db, raw: string, link: Link, n: Counters): Counters {
    if link.Dropped? || link.Unanswered? then n.(rejected := n.rejected + 1)
    else
      match ReplyTo(c, cfg, db, raw)
      case Accepted(_, duplicate) =>
        if duplicate && link.Answered? then n.(duplicates := n.duplicates + 1) else n.(forwarded := n.forwarded + 1)
      case Refusal(_) => n.(rejected := n.rejected + 1)
  }

  /** One gathered item. */
  function Step(c: Suite, cfg: Config, p: Progress, raw: string, link: Link): Progress {
    var n := p.count;
    match ValidateText(c, raw)
    case Valid(id, _) =>
      var n1 := n.(valid := n.valid + 1);
      if id in p.processed then p.(count := n1)
      else if link.Dropped? then Progress(p.db, p.processed + {id}, Counted(c, cfg, p.db, raw, link, n1), p.sent)
      else Progress(Posted(c, cfg, p.db, raw), p.processed + {id}, Counted(c, cfg, p.db, raw, link, n1), p.sent + [raw])
    case _ => p.(count := n.(invalid := n.invalid + 1))
  }

  /** All gathered items, in order. */
  function Steps(c: Suite, cfg: Config, db: Db, gathered: seq<string>, net: nat -> Link): Progress
    decreases |gathered|
  {
    if gathered == [] then Progress(db, {}, ZERO, [])
    else
      var k := |gathered| - 1;
      Step(c, cfg, Steps(c, cfg, db, gathered[..k], net), gathered[k], net(k))
  }

  /** The loop of sync over the gathered items, whatever source they came from. */
  method Forward(gathered: seq<string>, net: nat -> Link, dst: Server) returns (n: Counters)
    requires Faithful(dst.c.fp)
    modifies dst.store
    ensures var p := Steps(dst.c, dst.cfg, old(dst.store.State()), gathered, net);
            dst.store.State() == p.db && n == p.count
  {
    hide Faithful, ValidateText, Posted, ReplyTo;
    ghost var start := dst.store.State();
    ghost var sent: seq<string> := [];
    var processed: set<string> := {};
    n := ZERO;
    for i := 0 to |gathered|
      invariant Steps(dst.c, dst.cfg, start, gathered[..i], net) == Progress(dst.store.State(), processed, n, sent)
    {
      assert gathered[..i + 1][..i] == gathered[..i] && gathered[..i + 1][i] == gathered[i];
      var raw := gathered[i];
      var info := PyValidateBytes(dst.c, raw);
      if !info.Valid? {
        n := n.(invalid := n.invalid + 1);
      } else {
        n := n.(valid := n.valid + 1);
        if info.id !in processed {
          processed := processed + {info.id};
          if net(i) == Dropped {
            n := n.(rejected := n.rejected + 1);
          } else {
            var r := dst.Post(raw);
            sent := sent + [raw];
            if net(i) == Unanswered || r.Refusal? { n := n.(rejected := n.rejected + 1); }
            else if r.duplicate && net(i) == Answered { n := n.(duplicates := n.duplicates + 1); }
            else { n := n.(forwarded := n.forwarded + 1); }
          }
        }
      }
    }
    assert gathered[..|gathered|] == gathered;
  }

  // ---------------------------------------------------------------- accounting

  /** The ids of the valid items. */
  function ValidIds(c: Suite, gathered: seq<string>): set<string> {
    set k | 0 <= k < |gathered| && ValidateText(c, gathered[k]).Valid? :: ValidateText(c, gathered[k]).id
  }

  lemma ValidIdsNext(c: Suite, gathered: seq<string>)
    requires gathered != []
    ensures var init, raw := gathered[..|gathered| - 1], gathered[|gathered| - 1];
            ValidIds(c, gathered) ==
            ValidIds(c, init) + (if ValidateText(c, raw).Valid? then {ValidateText(c, raw).id} else {})
  {
    hide ValidateText;
    var init, raw := gathered[..|gathered| - 1], gathered[|gathered| - 1];
    forall id | id in ValidIds(c, init) ensures id in ValidIds(c, gathered) {
      var k :| 0 <= k < |init| && ValidateText(c, init[k]).Valid? && ValidateText(c, init[k]).id == id;
      assert gathered[k] == init[k];
    }
    forall id | id in ValidIds(c, gathered)
      ensures id in ValidIds(c, init) || (ValidateText(c, raw).Valid? && id == ValidateText(c, raw).id)
    {
      var k :| 0 <= k < |gathered| && ValidateText(c, gathered[k]).Valid? && ValidateText(c, gathered[k]).id == id;
      if k < |init| { assert init[k] == gathered[k]; }
    }
    if ValidateText(c, raw).Valid? { assert gathered[|gathered| - 1] == raw; }
  }

  function Outcomes(n: Counters): nat { n.forwarded + n.duplicates + n.rejected }

  lemma StepAccounts(c: Suite, cfg: Config, p: Progress, raw: string, link: Link)
    ensures var q := Step(c, cfg, p, raw, link);
            var v := ValidateText(c, raw);
            && q.count.valid + q.count.invalid == p.count.valid + p.count.invalid + 1
            && q.processed == (if v.Valid? then p.processed + {v.id} else p.processed)
            && Outcomes(q.count) == Outcomes(p.count) + (if v.Valid? && v.id !in p.processed then 1 else 0)
            && q.sent == (if v.Valid? && v.id !in p.processed && !link.Dropped? then p.sent + [raw] else p.sent)
  {
    hide ValidateText, Posted, ReplyTo;
  }

  /** Every item is valid or invalid, and every distinct valid id is forwarded, a duplicate, or rejected. */
  lemma {:induction false} Accounts(c: Suite, cfg: Config, db: Db, gathered: seq<string>, net: nat -> Link)
    ensures var p := Steps(c, cfg, db, gathered, net);
            && p.count.valid + p.count.invalid == |gathered|
            && p.processed == ValidIds(c, gathered)
            && p.count.forwarded + p.count.duplicates + p.count.rejected == |p.processed|
    decreases |gathered|
  {
    hide ValidateText, Step, ValidIds;
    if gathered != [] {
      var k := |gathered| - 1;
      Accounts(c, cfg, db, gathered[..k], net);
      ValidIdsNext(c, gathered);
      StepAccounts(c, cfg, Steps(c, cfg, db, gathered[..k], net), gathered[k], net(k));
    } else {
      NoItems(c);
    }
  }

  lemma NoItems(c: Suite)
    ensures ValidIds(c, []) == {}
  {
  }

  /** What a worker does to its destination is a run of ordinary submissions, every one of them valid, drawn
      from what it gathered: no invalid assertion is ever forwarded, whatever the source serves. */
  lemma {:induction false} SendsOnlyValid(c: Suite, cfg: Config, db: Db, gathered: seq<string>, net: nat -> Link)
    ensures var p := Steps(c, cfg, db, gathered, net);
            && p.db == Run(c, cfg, db, p.sent)
            && forall raw :: raw in p.sent ==> raw in gathered && ValidateText(c, raw).Valid?
    decreases |gathered|
  {
    hide ValidateText, Posted, ReplyTo;
    if gathered != [] {
      var k := |gathered| - 1;
      SendsOnlyValid(c, cfg, db, gathered[..k], net);
      var p := Steps(c, cfg, db, gathered[..k], net);
      RunAppend(c, cfg, db, p.sent, [gathered[k]]);
      RunOne(c, cfg, p.db, gathered[k]);
    }
  }

  // What the counters get wrong about one submission.

  /** A duplicate whose reply cannot be read counts as forwarded. */
  predicate Misread(c: Suite, cfg: Config, p: Progress, raw: string, link: Link) {
    && link.Unreadable? && ValidateText(c, raw).Valid? && ValidateText(c, raw).id !in p.processed
    && ReplyTo(c, cfg, p.db, raw).Accepted? && ReplyTo(c, cfg, p.db, raw).duplicate
  }

  /** A new row whose reply is lost does not. */
  predicate Unheard(c: Suite, cfg: Config, p: Progress, raw: string, link: Link) {
    && link.Unanswered? && ValidateText(c, raw).Valid? && ValidateText(c, raw).id !in p.processed
    && ReplyTo(c, cfg, p.db, raw).Accepted? && !ReplyTo(c, cfg, p.db, raw).duplicate
  }

  function MisreadCount(c: Suite, cfg: Config, db: Db, gathered: seq<string>, net: nat -> Link): nat
    decreases |gathered|
  {
    if gathered == [] then 0
    else
      var k := |gathered| - 1;
      MisreadCount(c, cfg, db, gathered[..k], net)
      + if Misread(c, cfg, Steps(c, cfg, db, gathered[..k], net), gathered[k], net(k)) then 1 else 0
  }

  function UnheardCount(c: Suite, cfg: Config, db: Db, gathered: seq<string>, net: nat -> Link): nat
    decreases |gathered|
  {
    if gathered == [] then 0
    else
      var k := |gathered| - 1;
      UnheardCount(c, cfg, db, gathered[..k], net)
      + if Unheard(c, cfg, Steps(c, cfg, db, gathered[..k], net), gathered[k], net(k)) then 1 else 0
  }

  lemma StepRows(c: Suite, cfg: Config, p: Progress, raw: string, link: Link)
    ensures var q := Step(c, cfg, p, raw, link);
            |q.db.rows| - |p.db.rows| + (if Misread(c, cfg, p, raw, link) then 1 else 0) ==
            q.count.forwarded - p.count.forwarded + (if Unheard(c, cfg, p, raw, link) then 1 else 0)
  {
    hide ValidateText, Judge, HasId;
  }

  /** For every link: the rows gained and the misread duplicates are the submissions counted as forwarded and the
      unheard ones. So `forwarded` is the number of rows gained exactly when as many are misread as unheard. */
  lemma {:induction false} ForwardedRows(c: Suite, cfg: Config, db: Db, gathered: seq<string>, net: nat -> Link)
    ensures var p := Steps(c, cfg, db, gathered, net);
            |p.db.rows| - |db.rows| + MisreadCount(c, cfg, db, gathered, net) ==
            p.count.forwarded + UnheardCount(c, cfg, db, gathered, net)
    decreases |gathered|
  {
    hide Step, Misread, Unheard;
    if gathered != [] {
      var k := |gathered| - 1;
      ForwardedRows(c, cfg, db, gathered[..k], net);
      StepRows(c, cfg, Steps(c, cfg, db, gathered[..k], net), gathered[k], net(k));
    }
  }

  /** Every reply that comes back can be read. */
  ghost predicate Readable(net: nat -> Link) { forall i: nat :: net(i) != Unreadable }

  /** Every reply to a request that arrives comes back and can be read. */
  ghost predicate Heard(net: nat -> Link) { forall i: nat :: net(i) == Answered || net(i) == Dropped }

  lemma {:induction false} NothingMisread(c: Suite, cfg: Config, db: Db, gathered: seq<string>, net: nat -> Link)
    ensures Readable(net) ==> MisreadCount(c, cfg, db, gathered, net) == 0
    ensures Heard(net) ==> UnheardCount(c, cfg, db, gathered, net) == 0
    decreases |gathered|
  {
    hide Steps, ValidateText, ReplyTo;
    if gathered != [] { NothingMisread(c, cfg, db, gathered[..|gathered| - 1], net); }
  }

  /** With readable replies the destination gains at least `forwarded` rows, and with every reply heard exactly
      that many. */
  lemma ForwardedWhenHeard(c: Suite, cfg: Config, db: Db, gathered: seq<string>, net: nat -> Link)
    ensures var p := Steps(c, cfg, db, gathered, net);
            && (Readable(net) ==> |p.db.rows| >= |db.rows| + p.count.forwarded)
            && (Heard(net) ==> |p.db.rows| == |db.rows| + p.count.forwarded)
  {
    hide Steps, MisreadCount, UnheardCount;
    ForwardedRows(c, cfg, db, gathered, net);
    NothingMisread(c, cfg, db, gathered, net);
  }

  /** A stored id submitted once more over a link that garbles the reply: `forwarded` is 1 and nothing is new. */
  lemma DuplicateForwarded(c: Suite, cfg: Config, db: Db, raw: string, net: nat -> Link)
    requires Judge(c, cfg, raw).Admitted? && HasId(db.rows, Judge(c, cfg, raw).rec.id) && net(0) == Unreadable
    ensures var p := Steps(c, cfg, db, [raw], net); p.db == db && p.count.forwarded == 1
  {
    hide Judge, HasId, ValidateText;
    AdmittedIsValid(c, cfg, raw);
    assert [raw][..0] == [];
    assert Steps(c, cfg, db, [], net) == Progress(db, {}, ZERO, []);
  }

  // ---------------------------------------------------------------- what the destination then holds

  /** Every request arrives, whatever becomes of the reply. */
  ghost predicate Arrives(net: nat -> Link) { forall i: nat :: net(i) != Dropped }

  /** The first valid text of each id, in order: what a worker submits. */
  function Firsts(c: Suite, gathered: seq<string>): seq<string>
    decreases |gathered|
  {
    if gathered == [] then []
    else
      var init, raw := gathered[..|gathered| - 1], gathered[|gathered| - 1];
      if ValidateText(c, raw).Valid? && ValidateText(c, raw).id !in ValidIds(c, init) then Firsts(c, init) + [raw]
      else Firsts(c, init)
  }

  lemma {:induction false} SendsFirsts(c: Suite, cfg: Config, db: Db, gathered: seq<string>, net: nat -> Link)
    requires Arrives(net)
    ensures Steps(c, cfg, db, gathered, net).sent == Firsts(c, gathered)
    decreases |gathered|
  {
    hide ValidateText, Step, ValidIds;
    if gathered != [] {
      var m := |gathered| - 1;
      var init := gathered[..m];
      SendsFirsts(c, cfg, db, init, net);
      Accounts(c, cfg, db, init, net);
      StepAccounts(c, cfg, Steps(c, cfg, db, init, net), gathered[m], net(m));
    }
  }

  /** After a sync whose requests all arrive the destination holds the ids it held and those it admits of the first
      texts. */
  lemma SyncStores(c: Suite, cfg: Config, db: Db, gathered: seq<string>, net: nat -> Link, id: string)
    requires Arrives(net)
    ensures HasId(Steps(c, cfg, db, gathered, net).db.rows, id) <==>
            HasId(db.rows, id) || Submitted(c, cfg, Firsts(c, gathered), id)
  {
    hide Judge, HasId, Steps, Run, Arrives, Submitted, Firsts, ValidateText;
    SendsOnlyValid(c, cfg, db, gathered, net);
    SendsFirsts(c, cfg, db, gathered, net);
    RunStoresAdmitted(c, cfg, db, Firsts(c, gathered), id);
  }

  /** None of these items is new to the table. */
  ghost predicate NothingNew(c: Suite, cfg: Config, db: Db, items: seq<string>) {
    forall k :: 0 <= k < |items| && Judge(c, cfg, items[k]).Admitted? ==> HasId(db.rows, Judge(c, cfg, items[k]).rec.id)
  }

  lemma NothingNewPosted(c: Suite, cfg: Config, p: Progress, raw: string, link: Link, items: seq<string>)
    requires NothingNew(c, cfg, p.db, items)
    requires ValidateText(c, raw).Valid? && ValidateText(c, raw).id !in p.processed ==> raw in items
    ensures Step(c, cfg, p, raw, link).db == p.db && !Unheard(c, cfg, p, raw, link)
  {
    hide Judge, HasId, ValidateText;
    if raw in items { var k :| 0 <= k < |items| && items[k] == raw; }
  }

  lemma {:induction false} NothingNewStays(c: Suite, cfg: Config, db: Db, gathered: seq<string>, net: nat -> Link)
    requires NothingNew(c, cfg, db, Firsts(c, gathered))
    ensures Steps(c, cfg, db, gathered, net).db == db && UnheardCount(c, cfg, db, gathered, net) == 0
    decreases |gathered|
  {
    hide Judge, HasId, ValidateText, Step, ValidIds, Unheard;
    if gathered != [] {
      var k := |gathered| - 1;
      var init, all := gathered[..k], Firsts(c, gathered);
      assert NothingNew(c, cfg, db, Firsts(c, init)) by {
        forall i | 0 <= i < |Firsts(c, init)| ensures Firsts(c, init)[i] == all[i] { }
      }
      NothingNewStays(c, cfg, db, init, net);
      Accounts(c, cfg, db, init, net);
      NothingNewPosted(c, cfg, Steps(c, cfg, db, init, net), gathered[k], net(k), all);
    }
  }

  /** An immediate repeat, over any link, changes nothing; it counts as forwarded exactly the duplicates whose
      replies it cannot read, none when they can be read. */
  lemma RepeatForwardsNothing(c: Suite, cfg: Config, db: Db, gathered: seq<string>, net: nat -> Link,
      again: nat -> Link)
    requires Arrives(net)
    ensures var p := Steps(c, cfg, db, gathered, net);
            var q := Steps(c, cfg, p.db, gathered, again);
            && q.db == p.db && q.count.forwarded == MisreadCount(c, cfg, p.db, gathered, again)
            && (Readable(again) ==> q.count.forwarded == 0)
  {
    hide Judge, HasId, Steps, Arrives, Readable, ValidateText, Firsts, MisreadCount, UnheardCount;
    var p, items := Steps(c, cfg, db, gathered, net), Firsts(c, gathered);
    forall k | 0 <= k < |items| && Judge(c, cfg, items[k]).Admitted?
      ensures HasId(p.db.rows, Judge(c, cfg, items[k]).rec.id)
    {
      SyncStores(c, cfg, db, gathered, net, Judge(c, cfg, items[k]).rec.id);
      assert Submitted(c, cfg, items, Judge(c, cfg, items[k]).rec.id);
    }
    NothingNewStays(c, cfg, p.db, gathered, again);
    ForwardedRows(c, cfg, p.db, gathered, again);
    NothingMisread(c, cfg, p.db, gathered, again);
  }

  // ---------------------------------------------------------------- sources that serve one text per id

  /** Valid items with one id are one text. */
  ghost predicate OneTextPerId(c: Suite, gathered: seq<string>) {
    forall i, j :: 0 <= i < j < |gathered| && SameId(c, gathered[i], gathered[j]) ==> gathered[i] == gathered[j]
  }

  predicate SameId(c: Suite, s: string, t: string) {
    ValidateText(c, s).Valid? && ValidateText(c, t).Valid? && ValidateText(c, s).id == ValidateText(c, t).id
  }

  lemma AdmittedIsValid(c: Suite, cfg: Config, raw: string)
    requires Judge(c, cfg, raw).Admitted?
    ensures ValidateText(c, raw).Valid? && Judge(c, cfg, raw).rec.id == ValidateText(c, raw).id
  {
    hide ValidateText, Permits, Utf8Len;
  }

  /** A valid text that is still to come under a known id has come before. */
  lemma SeenBefore(c: Suite, gathered: seq<string>)
    requires gathered != [] && OneTextPerId(c, gathered)
    ensures var m := |gathered| - 1;
            var v := ValidateText(c, gathered[m]);
            v.Valid? && v.id in ValidIds(c, gathered[..m]) ==> gathered[m] in gathered[..m]
  {
    hide ValidateText;
    var m := |gathered| - 1;
    var init, v := gathered[..m], ValidateText(c, gathered[m]);
    if v.Valid? && v.id in ValidIds(c, init) {
      var j :| 0 <= j < |init| && ValidateText(c, init[j]).Valid? && ValidateText(c, init[j]).id == v.id;
      assert init[j] == gathered[j] && SameId(c, gathered[j], gathered[m]);
    }
  }

  lemma FewerItems(c: Suite, gathered: seq<string>)
    requires gathered != [] && OneTextPerId(c, gathered)
    ensures OneTextPerId(c, gathered[..|gathered| - 1])
  {
    hide SameId;
    var init := gathered[..|gathered| - 1];
    forall i, j | 0 <= i < j < |init| && SameId(c, init[i], init[j]) ensures init[i] == init[j] {
      assert init[i] == gathered[i] && init[j] == gathered[j];
    }
  }

  /** Then every valid text is a first one. */
  lemma {:induction false} AllFirsts(c: Suite, gathered: seq<string>, raw: string)
    requires OneTextPerId(c, gathered)
    ensures raw in Firsts(c, gathered) <==> raw in gathered && ValidateText(c, raw).Valid?
    decreases |gathered|
  {
    hide ValidateText, OneTextPerId, ValidIds;
    if gathered != [] {
      var m := |gathered| - 1;
      FewerItems(c, gathered);
      SeenBefore(c, gathered);
      AllFirsts(c, gathered[..m], raw);
      assert gathered == gathered[..m] + [gathered[m]];
    }
  }

  /** So the destination gains exactly what it admits of all that was gathered. */
  lemma SyncStoresAll(c: Suite, cfg: Config, db: Db, gathered: seq<string>, net: nat -> Link, id: string)
    requires Arrives(net) && OneTextPerId(c, gathered)
    ensures HasId(Steps(c, cfg, db, gathered, net).db.rows, id) <==>
            HasId(db.rows, id) || Submitted(c, cfg, gathered, id)
  {
    hide Judge, HasId, Steps, Arrives, OneTextPerId, ValidateText, Firsts;
    SyncStores(c, cfg, db, gathered, net, id);
    var firsts := Firsts(c, gathered);
    if Submitted(c, cfg, gathered, id) {
      var k :| 0 <= k < |gathered| && Judge(c, cfg, gathered[k]).Admitted? && Judge(c, cfg, gathered[k]).rec.id == id;
      AdmittedIsValid(c, cfg, gathered[k]);
      AllFirsts(c, gathered, gathered[k]);
      var j :| 0 <= j < |firsts| && firsts[j] == gathered[k];
      assert Submitted(c, cfg, firsts, id);
    }
    if Submitted(c, cfg, firsts, id) {
      var j :| 0 <= j < |firsts| && Judge(c, cfg, firsts[j]).Admitted? && Judge(c, cfg, firsts[j]).rec.id == id;
      AllFirsts(c, gathered, firsts[j]);
      var k :| 0 <= k < |gathered| && gathered[k] == firsts[j];
      assert Submitted(c, cfg, gathered, id);
    }
  }

  // ---------------------------------------------------------------- sources that serve several texts with one id

  /** The first valid text with this id. */
  function FirstText(c: Suite, gathered: seq<string>, id: string): Option<string>
    decreases |gathered|
  {
    if gathered == [] then None
    else
      var earlier, raw := FirstText(c, gathered[..|gathered| - 1], id), gathered[|gathered| - 1];
      if earlier.Some? then earlier
      else if ValidateText(c, raw).Valid? && ValidateText(c, raw).id == id then Some(raw)
      else None
  }

  lemma {:induction false} FirstTextMeans(c: Suite, gathered: seq<string>, id: string)
    ensures var t := FirstText(c, gathered, id);
            && (t.Some? <==> id in ValidIds(c, gathered))
            && (t.Some? ==> ValidateText(c, t.value).Valid? && ValidateText(c, t.value).id == id)
    decreases |gathered|
  {
    hide ValidateText, ValidIds;
    if gathered != [] {
      FirstTextMeans(c, gathered[..|gathered| - 1], id);
      ValidIdsNext(c, gathered);
    } else {
      NoItems(c);
    }
  }

  lemma SubmittedLast(c: Suite, cfg: Config, bodies: seq<string>, raw: string, id: string)
    ensures Submitted(c, cfg, bodies + [raw], id) <==>
            Submitted(c, cfg, bodies, id) || (Judge(c, cfg, raw).Admitted? && Judge(c, cfg, raw).rec.id == id)
  {
    hide Judge;
    var all := bodies + [raw];
    if Submitted(c, cfg, bodies, id) {
      var k :| 0 <= k < |bodies| && Judge(c, cfg, bodies[k]).Admitted? && Judge(c, cfg, bodies[k]).rec.id == id;
      assert all[k] == bodies[k];
    }
    assert all[|bodies|] == raw;
    if k :| 0 <= k < |bodies| && Judge(c, cfg, all[k]).Admitted? && Judge(c, cfg, all[k]).rec.id == id {
      assert bodies[k] == all[k];
    }
  }

  /** The first valid text with this id exists and the destination admits it. */
  predicate FirstAdmitted(c: Suite, cfg: Config, gathered: seq<string>, id: string) {
    var t := FirstText(c, gathered, id);
    t.Some? && Judge(c, cfg, t.value).Admitted?
  }

  lemma {:induction false} FirstsAdmitted(c: Suite, cfg: Config, gathered: seq<string>, id: string)
    ensures Submitted(c, cfg, Firsts(c, gathered), id) <==> FirstAdmitted(c, cfg, gathered, id)
    decreases |gathered|
  {
    hide ValidateText, Judge, ValidIds, Submitted;
    if gathered != [] {
      var init, raw := gathered[..|gathered| - 1], gathered[|gathered| - 1];
      FirstsAdmitted(c, cfg, init, id);
      FirstTextMeans(c, init, id);
      if ValidateText(c, raw).Valid? { FirstTextMeans(c, init, ValidateText(c, raw).id); }
      SubmittedLast(c, cfg, Firsts(c, init), raw, id);
      if Judge(c, cfg, raw).Admitted? { AdmittedIsValid(c, cfg, raw); }
    } else {
      NothingSubmitted(c, cfg, id);
    }
  }

  lemma NothingSubmitted(c: Suite, cfg: Config, id: string)
    ensures !Submitted(c, cfg, [], id)
  {
  }

  /** The destination gains everything it would admit of what was gathered if and only if, for each such id, it
      admits the first valid text or holds the id already. */
  lemma GainsAllIff(c: Suite, cfg: Config, db: Db, gathered: seq<string>, net: nat -> Link)
    requires Arrives(net)
    ensures (forall id :: Submitted(c, cfg, gathered, id) ==> HasId(Steps(c, cfg, db, gathered, net).db.rows, id)) <==>
            (forall id :: Submitted(c, cfg, gathered, id) ==> HasId(db.rows, id) || FirstAdmitted(c, cfg, gathered, id))
  {
    hide Judge, HasId, Steps, Arrives, Submitted, Firsts, FirstAdmitted;
    forall id ensures HasId(Steps(c, cfg, db, gathered, net).db.rows, id) <==>
        HasId(db.rows, id) || FirstAdmitted(c, cfg, gathered, id) {
      SyncStores(c, cfg, db, gathered, net, id);
      FirstsAdmitted(c, cfg, gathered, id);
    }
  }

  /** Two texts with one id, the first refused and the second admissible: the second never reaches the
      destination, which ends without the id. */
  lemma SecondTextLost(c: Suite, cfg: Config, db: Db, s: string, t: string, net: nat -> Link)
    requires Arrives(net) && SameId(c, s, t) && !Judge(c, cfg, s).Admitted? && Judge(c, cfg, t).Admitted?
    requires !HasId(db.rows, ValidateText(c, s).id)
    ensures var id := ValidateText(c, s).id;
            Submitted(c, cfg, [s, t], id) && !HasId(Steps(c, cfg, db, [s, t], net).db.rows, id)
  {
    hide Judge, HasId, Steps, Arrives, ValidateText;
    var id := ValidateText(c, s).id;
    AdmittedIsValid(c, cfg, t);
    assert [s, t][1] == t;
    SyncStores(c, cfg, db, [s, t], net, id);
    FirstsAdmitted(c, cfg, [s, t], id);
    assert [s, t][..1] == [s] && [s][..0] == [];
    assert FirstText(c, [s], id) == Some(s);
  }

  // ---------------------------------------------------------------- a network of relays

  /** One relay of a network: its policy and its tables. */
  datatype Node = Node(cfg: Config, db: Db)

  /** A client publishes to a relay, or a worker brings it whatever it gathered, from honest relays or not. */
  datatype Event =
    | Publish(to: nat, body: string)
    | Sync(to: nat, gathered: seq<string>, net: nat -> Link)

  function Next(c: Suite, nodes: seq<Node>, e: Event): seq<Node> {
    if e.to >= |nodes| then nodes
    else
      var n := nodes[e.to];
      match e
      case Publish(_, body) => nodes[e.to := n.(db := Posted(c, n.cfg, n.db, body))]
      case Sync(_, gathered, net) => nodes[e.to := n.(db := Steps(c, n.cfg, n.db, gathered, net).db)]
  }

  function History(c: Suite, nodes: seq<Node>, es: seq<Event>): seq<Node>
    decreases |es|
  {
    if es == [] then nodes else History(c, Next(c, nodes, es[0]), es[1..])
  }

  ghost predicate AllOk(c: Suite, nodes: seq<Node>) {
    forall i :: 0 <= i < |nodes| ==> Ok(c, nodes[i].cfg, nodes[i].db)
  }

  /** Same relays, same policies, and no row of any of them changed or dropped. */
  ghost predicate OnlyGrew(before: seq<Node>, after: seq<Node>) {
    && |before| == |after|
    && forall i :: 0 <= i < |before| ==> before[i].cfg == after[i].cfg && before[i].db.rows <= after[i].db.rows
  }

  lemma NextKeeps(c: Suite, nodes: seq<Node>, e: Event)
    requires Faithful(c.fp) && AllOk(c, nodes)
    ensures AllOk(c, Next(c, nodes, e)) && OnlyGrew(nodes, Next(c, nodes, e))
  {
    hide Faithful, Ok, Posted, Steps, Run, ValidateText;
    if e.to < |nodes| {
      var n := nodes[e.to];
      match e
      case Publish(_, body) => PostedKeeps(c, n.cfg, n.db, body);
      case Sync(_, gathered, net) =>
        SendsOnlyValid(c, n.cfg, n.db, gathered, net);
        RunKeeps(c, n.cfg, n.db, Steps(c, n.cfg, n.db, gathered, net).sent);
    }
  }

  /** Over every history of publishing and syncing, with any sources, every row of every relay stays authentic
      and within that relay's policy, ids stay unique, and no row changes or vanishes. */
  lemma {:induction false} HistoryKeeps(c: Suite, nodes: seq<Node>, es: seq<Event>)
    requires Faithful(c.fp) && AllOk(c, nodes)
    ensures AllOk(c, History(c, nodes, es)) && OnlyGrew(nodes, History(c, nodes, es))
    decreases |es|
  {
    hide Faithful, AllOk, Next;
    if es != [] {
      NextKeeps(c, nodes, es[0]);
      HistoryKeeps(c, Next(c, nodes, es[0]), es[1..]);
    }
  }
}
