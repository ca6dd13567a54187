/** What every run of the durable relay keeps, and what its rows mean. */
module RelayRuns {
  import opened Values
  import opened Decimals
  import opened Bytes
  import opened Sorting
  import opened Printing
  import opened RoundTrip
  import opened Documents
  import opened Protocol
  import opened GoVerify
  import opened Validation
  import opened Revalidation
  import opened Relay
  import Mining

  // ---------------------------------------------------------------- rows

  /** The envelope of a record revalidates to the id of the record, and all its columns are derived from it. */
  ghost predicate Authentic(c: Suite, rec: Record) {
    var v := ValidateText(c, rec.envelope);
    && v.Valid? && v.id == rec.id
    && ParseObject(c.fp, rec.envelope).Some?
    && rec == Derive(c, ParseObject(c.fp, rec.envelope).value.members, v.id)
  }

  ghost predicate WithinPolicy(c: Suite, cfg: Config, rec: Record) {
    var v := ValidateText(c, rec.envelope);
    && v.Valid? && ParseObject(c.fp, rec.envelope).Some?
    && Permits(cfg, ParseObject(c.fp, rec.envelope).value.members, v.id, v.units)
  }

  /** Columns and policy do not depend on the order of members. */
  lemma DeriveCanon(c: Suite, cfg: Config, env: Members, id: string, units: nat)
    requires NoDup(Obj(env)) && VersionAndType(Unsigned(env)) && Schema(Unsigned(env))
    ensures Derive(c, CanonObj(env), id) == Derive(c, env, id)
    ensures Permits(cfg, CanonObj(env), id, units) == Permits(cfg, env, id, units)
  {
    hide Lookup, NoDup, CanonObj, Unsigned, Schema, VersionAndType, LocalWork, LocatorsWithin, Print;
    var u := Unsigned(env);
    UniqueOf(env);
    UnsignedCanon(env);
    UnsignedNoDup(env);
    CanonScalars(u);
    CanonReference(u);
    CanonText(c, env);
    UnsignedLookup(env, "actor");
    UnsignedLookup(env, "channel");
    UnsignedLookup(CanonObj(env), "actor");
    UnsignedLookup(CanonObj(env), "channel");
    LocatorsOf(u);
    CanonSchema(u);
    LocatorsOf(CanonObj(u));
  }

  /** Of a U that meets the schema, the policy looks at the reference object. */
  lemma LocatorsOf(u: Members)
    requires VersionAndType(u) && Schema(u)
    ensures RefLocators(u) == Items(SubField(Reference(u), "locators"))
  {
    hide Lookup, Names, RefShape;
    KindsDiffer();
  }

  /** Parsing the stored text gives the received object, its members in canonical order. */
  lemma StoredParse(c: Suite, body: string)
    requires Faithful(c.fp) && ValidateText(c, body).Valid? && ParseObject(c.fp, body).Some?
    ensures var env := ParseObject(c.fp, body).value.members;
            ParseObject(c.fp, Canonical(c, env)) == Some(Obj(CanonObj(env)))
  {
    hide Faithful, Parse, PyValidate, NoDup, Sound, Print, Canon, CanonObj;
    ParsedObject(c, body);
    var env := ParseObject(c.fp, body).value.members;
    ParseOfPrint(c.fp, Obj(env));
    CanonOfObj(env);
  }

  /** What admission hands to the store is authentic and within policy, and keeps the id of the submission. */
  lemma AdmittedIsAuthentic(c: Suite, cfg: Config, body: string)
    requires Faithful(c.fp) && Judge(c, cfg, body).Admitted?
    ensures var rec := Judge(c, cfg, body).rec;
            && ValidateText(c, body).Valid? && rec.id == ValidateText(c, body).id
            && Authentic(c, rec) && WithinPolicy(c, cfg, rec)
  {
    hide Faithful, Parse, PyValidate, NoDup, Sound, Print, CanonObj, Unsigned, Schema, VersionAndType, Permits, Utf8Len;
    ValidFacts(c, body);
    var env := ParseObject(c.fp, body).value.members;
    var v := ValidateText(c, body);
    StoredParse(c, body);
    CanonicalRevalidates(c, body);
    DeriveCanon(c, cfg, env, v.id, v.units);
    assert Judge(c, cfg, body).rec.envelope == Canonical(c, env);
  }

  // ---------------------------------------------------------------- the invariant

  predicate SeqsIncrease(rows: seq<Row>) { forall i, j :: 0 <= i < j < |rows| ==> rows[i].seqNo < rows[j].seqNo }

  predicate SeqsBelow(rows: seq<Row>, last: nat) { forall i :: 0 <= i < |rows| ==> 0 < rows[i].seqNo <= last }

  predicate UniqueIds(rows: seq<Row>) { forall i, j :: 0 <= i < j < |rows| ==> rows[i].rec.id != rows[j].rec.id }

  /** The ids of the channel-type rows, in the order they were stored. */
  function ChannelIds(rows: seq<Row>): seq<string> {
    if rows == [] then []
    else
      var init := ChannelIds(rows[..|rows| - 1]);
      var r := rows[|rows| - 1];
      if r.rec.kind == "channel" then init + [r.rec.id] else init
  }

  ghost predicate RowsOk(c: Suite, cfg: Config, rows: seq<Row>) {
    forall i :: 0 <= i < |rows| ==> Authentic(c, rows[i].rec) && WithinPolicy(c, cfg, rows[i].rec)
  }

  /** Increasing sequence numbers up to the counter, unique ids, and the channel-type rows advertised. */
  ghost predicate Coherent(db: Db) {
    SeqsIncrease(db.rows) && SeqsBelow(db.rows, db.last) && UniqueIds(db.rows) && db.advertised == ChannelIds(db.rows)
  }

  ghost predicate Ok(c: Suite, cfg: Config, db: Db) { Coherent(db) && RowsOk(c, cfg, db.rows) }

  lemma {:induction false} ChannelIdsAre(rows: seq<Row>, id: string)
    ensures id in ChannelIds(rows) <==>
            exists i :: 0 <= i < |rows| && rows[i].rec.id == id && rows[i].rec.kind == "channel"
  {
    if rows != [] {
      var init, r := rows[..|rows| - 1], rows[|rows| - 1];
      ChannelIdsAre(init, id);
      if id in ChannelIds(init) {
        var i :| 0 <= i < |init| && init[i].rec.id == id && init[i].rec.kind == "channel";
        assert rows[i] == init[i];
      }
      if i :| 0 <= i < |rows| && rows[i].rec.id == id && rows[i].rec.kind == "channel" {
        if i < |init| { assert init[i] == rows[i]; }
      }
    }
  }

  /** A relay advertises exactly the ids of the channel-type assertions it stores. */
  lemma AdvertisesChannels(c: Suite, cfg: Config, db: Db, id: string)
    requires Ok(c, cfg, db)
    ensures id in db.advertised <==>
            exists i :: 0 <= i < |db.rows| && db.rows[i].rec.id == id && db.rows[i].rec.kind == "channel"
  {
    ChannelIdsAre(db.rows, id);
  }

  lemma AddedCoherent(db: Db, rec: Record)
    requires Coherent(db)
    ensures Coherent(Added(db, rec))
  {
    hide ChannelIds;
    if !HasId(db.rows, rec.id) {
      var rows := Added(db, rec).rows;
      assert rows[..|rows| - 1] == db.rows;
      ChannelIdsAre(db.rows, rec.id);
      ChannelIdsNext(db.rows, rows[|rows| - 1]);
    }
  }

  lemma AddedKeeps(c: Suite, cfg: Config, db: Db, rec: Record)
    requires Ok(c, cfg, db) && Authentic(c, rec) && WithinPolicy(c, cfg, rec)
    ensures Ok(c, cfg, Added(db, rec))
  {
    hide Authentic, WithinPolicy, Coherent;
    AddedCoherent(db, rec);
  }

  lemma ChannelIdsNext(rows: seq<Row>, r: Row)
    ensures ChannelIds(rows + [r]) == ChannelIds(rows) + (if r.rec.kind == "channel" then [r.rec.id] else [])
  {
    assert (rows + [r])[..|rows|] == rows;
  }

  /** One submission keeps the invariant, and adds at the end or changes nothing. */
  lemma PostedKeeps(c: Suite, cfg: Config, db: Db, body: string)
    requires Faithful(c.fp) && Ok(c, cfg, db)
    ensures Ok(c, cfg, Posted(c, cfg, db, body)) && db.rows <= Posted(c, cfg, db, body).rows
  {
    hide Faithful, Ok, Judge, Authentic, WithinPolicy;
    if Judge(c, cfg, body).Admitted? {
      AdmittedIsAuthentic(c, cfg, body);
      AddedKeeps(c, cfg, db, Judge(c, cfg, body).rec);
    }
  }

  /** The store changes exactly when the reply reports a new assertion; a refused or repeated one changes nothing. */
  lemma ChangesIffNew(c: Suite, cfg: Config, db: Db, body: string)
    ensures var r := ReplyTo(c, cfg, db, body);
            Posted(c, cfg, db, body) != db <==> r.Accepted? && !r.duplicate
  {
    hide Judge;
    match Judge(c, cfg, body)
    case Admitted(rec) => assert |Added(db, rec).rows| == |db.rows| + if HasId(db.rows, rec.id) then 0 else 1;
    case _ =>
  }

  // ---------------------------------------------------------------- runs

  function Run(c: Suite, cfg: Config, db: Db, bodies: seq<string>): Db
    decreases |bodies|
  {
    if bodies == [] then db else Run(c, cfg, Posted(c, cfg, db, bodies[0]), bodies[1..])
  }

  /** Every run keeps the invariant and never changes or drops a row. */
  lemma {:induction false} RunKeeps(c: Suite, cfg: Config, db: Db, bodies: seq<string>)
    requires Faithful(c.fp) && Ok(c, cfg, db)
    ensures Ok(c, cfg, Run(c, cfg, db, bodies)) && db.rows <= Run(c, cfg, db, bodies).rows
    decreases |bodies|
  {
    hide Faithful, Ok, Posted;
    if bodies != [] {
      PostedKeeps(c, cfg, db, bodies[0]);
      RunKeeps(c, cfg, Posted(c, cfg, db, bodies[0]), bodies[1..]);
    }
  }

  lemma {:induction false} RunAppend(c: Suite, cfg: Config, db: Db, a: seq<string>, b: seq<string>)
    ensures Run(c, cfg, db, a + b) == Run(c, cfg, Run(c, cfg, db, a), b)
    decreases |a|
  {
    hide Posted;
    if a == [] {
      assert a + b == b;
    } else {
      assert (a + b)[1..] == a[1..] + b;
      RunAppend(c, cfg, Posted(c, cfg, db, a[0]), a[1..], b);
    }
  }

  lemma RunOne(c: Suite, cfg: Config, db: Db, raw: string)
    ensures Run(c, cfg, db, [raw]) == Posted(c, cfg, db, raw)
  {
    hide Posted;
    assert [raw][1..] == [];
    assert Run(c, cfg, Posted(c, cfg, db, raw), []) == Posted(c, cfg, db, raw);
  }

  /** Some submission of the run was admitted under this id. */
  ghost predicate Submitted(c: Suite, cfg: Config, bodies: seq<string>, id: string) {
    exists k :: 0 <= k < |bodies| && Judge(c, cfg, bodies[k]).Admitted? && Judge(c, cfg, bodies[k]).rec.id == id
  }

  lemma AddedHas(db: Db, rec: Record, id: string)
    ensures HasId(Added(db, rec).rows, id) <==> HasId(db.rows, id) || id == rec.id
  {
    if !HasId(db.rows, rec.id) {
      var rows := Added(db, rec).rows;
      assert rows[|rows| - 1].rec == rec;
      if HasId(db.rows, id) {
        var i :| 0 <= i < |db.rows| && db.rows[i].rec.id == id;
        assert rows[i] == db.rows[i];
      }
      if HasId(rows, id) {
        var i :| 0 <= i < |rows| && rows[i].rec.id == id;
        assert i < |db.rows| ==> db.rows[i] == rows[i];
      }
    }
  }

  lemma PostedHas(c: Suite, cfg: Config, db: Db, body: string, id: string)
    ensures HasId(Posted(c, cfg, db, body).rows, id) <==>
            HasId(db.rows, id) || (Judge(c, cfg, body).Admitted? && Judge(c, cfg, body).rec.id == id)
  {
    hide Judge, HasId, Added;
    if Judge(c, cfg, body).Admitted? { AddedHas(db, Judge(c, cfg, body).rec, id); }
  }

  lemma SubmittedFirst(c: Suite, cfg: Config, bodies: seq<string>, id: string)
    requires bodies != []
    ensures Submitted(c, cfg, bodies, id) <==>
            (Judge(c, cfg, bodies[0]).Admitted? && Judge(c, cfg, bodies[0]).rec.id == id)
                || Submitted(c, cfg, bodies[1..], id)
  {
    hide Judge;
    if Submitted(c, cfg, bodies[1..], id) {
      var k :| 0 <= k < |bodies[1..]| && Judge(c, cfg, bodies[1..][k]).Admitted?
          && Judge(c, cfg, bodies[1..][k]).rec.id == id;
      assert bodies[k + 1] == bodies[1..][k];
    }
    if k :| 0 < k < |bodies| && Judge(c, cfg, bodies[k]).Admitted? && Judge(c, cfg, bodies[k]).rec.id == id {
      assert bodies[1..][k - 1] == bodies[k];
    }
  }

  /** After a run the stored ids are the earlier ones and those of the admitted submissions, no others. */
  lemma {:induction false} RunStoresAdmitted(c: Suite, cfg: Config, db: Db, bodies: seq<string>, id: string)
    ensures HasId(Run(c, cfg, db, bodies).rows, id) <==> HasId(db.rows, id) || Submitted(c, cfg, bodies, id)
    decreases |bodies|
  {
    hide Judge, Posted, HasId;
    if bodies != [] {
      PostedHas(c, cfg, db, bodies[0], id);
      RunStoresAdmitted(c, cfg, Posted(c, cfg, db, bodies[0]), bodies[1..], id);
      SubmittedFirst(c, cfg, bodies, id);
    }
  }

  lemma EmptyOk(c: Suite, cfg: Config)
    ensures Ok(c, cfg, EMPTY)
  {
  }

  /** A relay that started empty: every table it reaches satisfies the invariant and holds exactly the ids of its
      admitted submissions. */
  lemma RunFromEmpty(c: Suite, cfg: Config, bodies: seq<string>, id: string)
    requires Faithful(c.fp)
    ensures Ok(c, cfg, Run(c, cfg, EMPTY, bodies))
    ensures HasId(Run(c, cfg, EMPTY, bodies).rows, id) <==> Submitted(c, cfg, bodies, id)
  {
    hide Faithful, Ok, Run, Submitted;
    EmptyOk(c, cfg);
    RunKeeps(c, cfg, EMPTY, bodies);
    RunStoresAdmitted(c, cfg, EMPTY, bodies, id);
  }

  // ---------------------------------------------------------------- local work

  lemma LocalWorkOfId(d: Digest, units: nat, m: Positive)
    requires units > 0
    ensures units * m > 0 && (LocalWork(IdOf(d), units, m) <==> BigEndianInt(d) <= Target(units * m))
  {
    hide Hex, HexInt, BigEndianInt, IsLowerHex, IdOf;
    IdIsTagged(d);
    HexIntIsBigEndian(d);
    Scaled(units, m);
    assert HexInt(IdOf(d)[7..]) == BigEndianInt(d);
    assert MAX_H / (units * UNIT_SCALE * m) == Target(units * m);
  }

  lemma Scaled(units: nat, m: nat)
    requires units > 0 && m > 0
    ensures units * m > 0 && units * UNIT_SCALE * m == (units * m) * UNIT_SCALE
  {
  }

  /** A valid id is the hexadecimal text of the digest, so the local check is the work check of multiplied units. */
  lemma LocalWorkMeans(c: Suite, obj: Members, multiplier: Positive)
    requires PyValidate(c, obj).Valid?
    ensures var v := PyValidate(c, obj);
            && v.units > 0 && v.units * multiplier > 0
            && (LocalWork(v.id, v.units, multiplier) <==>
                BigEndianInt(c.sha256(Canonical(c, Unsigned(obj)))) <= Target(v.units * multiplier))
  {
    hide *;
    ValidShape(c, obj);
    LocalWorkOfId(c.sha256(Canonical(c, Unsigned(obj))), PyValidate(c, obj).units, multiplier);
  }

  /** With multiplier 1 every valid assertion has done its local work. */
  lemma PlainWork(c: Suite, obj: Members)
    requires PyValidate(c, obj).Valid?
    ensures LocalWork(PyValidate(c, obj).id, PyValidate(c, obj).units, 1)
  {
    hide LocalWork, Canonical, Unsigned, Utf8Len, Units, PyCheckSchema, SignatureVerifies, Target;
    LocalWorkMeans(c, obj, 1);
    ValidShape(c, obj);
  }

  // ---------------------------------------------------------------- the id pins U

  /** SHA-256 separates these texts. */
  ghost predicate Separates(c: Suite, s: string, t: string) { c.sha256(s) == c.sha256(t) ==> s == t }

  function TextOfU(c: Suite, text: string): string {
    match ParseObject(c.fp, text)
    case Some(v) => Canonical(c, Unsigned(v.members))
    case None => ""
  }

  /** Two valid texts with one id carry the same U, unless their canonical texts collide. */
  lemma IdPinsU(c: Suite, s: string, t: string)
    requires Faithful(c.fp) && ValidateText(c, s).Valid? && ValidateText(c, t).Valid?
    requires ValidateText(c, s).id == ValidateText(c, t).id && Separates(c, TextOfU(c, s), TextOfU(c, t))
    ensures ParseObject(c.fp, s).Some? && ParseObject(c.fp, t).Some?
    ensures SameValue(Obj(Unsigned(ParseObject(c.fp, s).value.members)),
            Obj(Unsigned(ParseObject(c.fp, t).value.members)))
    ensures TextOfU(c, s) == TextOfU(c, t)
  {
    hide Faithful, Parse, PyValidate, NoDup, Sound, Print, Unsigned, Schema, VersionAndType, SameValue, Units, Utf8Len,
         Hex;
    ValidFacts(c, s);
    ValidFacts(c, t);
    var a, b := ParseObject(c.fp, s).value.members, ParseObject(c.fp, t).value.members;
    ValidShape(c, a);
    ValidShape(c, b);
    Mining.SameIdSameDigest(c.sha256(TextOfU(c, s)), c.sha256(TextOfU(c, t)));
    Mining.UnsignedParsed(c, a);
    Mining.UnsignedParsed(c, b);
    PrintInjective(c.fp, Obj(Unsigned(a)), Obj(Unsigned(b)));
  }
}
