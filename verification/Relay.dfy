/** The durable relay: its tables, admission of one submission, and what every run of submissions keeps. */
module Relay {
  import opened Values
  import opened Decimals
  import opened Bytes
  import opened Printing
  import opened Printers
  import opened RoundTrip
  import opened Documents
  import opened Protocol
  import opened GoVerify
  import opened Validation

  // ---------------------------------------------------------------- tables

  /** What admission hands to the store; the row adds the sequence number. */
  datatype Record = Record(id: string, envelope: string, kind: string, actor: string, channel: Option<string>,
      hash: Option<string>)

  datatype Row = Row(seqNo: nat, rec: Record)

  /** The assertions table, the advertised_channels table, and the AUTOINCREMENT counter. */
  datatype Db = Db(rows: seq<Row>, advertised: seq<string>, last: nat)

  const EMPTY := Db([], [], 0)

  type Positive = n: nat | n > 0 witness 1

  datatype Config = Config(
    pageSize: Positive, multiplier: Positive, maxRecord: int,
    maxLocators: nat, maxLocatorBytes: nat, maxParents: nat, blockActor: string, blockChannel: string)

  predicate HasId(rows: seq<Row>, id: string) { exists i :: 0 <= i < |rows| && rows[i].rec.id == id }

  /** Store.add: ignored when the id is known, else one new row, and a channel type advertises its own id. */
  function Added(db: Db, rec: Record): Db {
    if HasId(db.rows, rec.id) then db
    else Db(
      db.rows + [Row(db.last + 1, rec)],
      if rec.kind == "channel" && rec.id !in db.advertised then db.advertised + [rec.id] else db.advertised,
      db.last + 1)
  }

  class Store {
    var rows: seq<Row>
    var advertised: seq<string>
    var last: nat

    function State(): Db
      reads this
    {
      Db(rows, advertised, last)
    }

    constructor ()
      ensures State() == EMPTY
    {
      rows, advertised, last := [], [], 0;
    }

    method Add(rec: Record) returns (inserted: bool)
      modifies this
      ensures State() == Added(old(State()), rec)
      ensures inserted == !HasId(old(rows), rec.id)
    {
      if HasId(rows, rec.id) { return false; }
      last := last + 1;
      rows := rows + [Row(last, rec)];
      if rec.kind == "channel" && rec.id !in advertised { advertised := advertised + [rec.id]; }
      return true;
    }

    method GetAssertion(hex: string) returns (r: Option<string>)
      ensures r.Some? ==>
              exists i :: 0 <= i < |rows| && rows[i].rec.id == "sha256:" + hex && r.value == rows[i].rec.envelope
      ensures r.Some? <==> HasId(rows, "sha256:" + hex)
    {
      for i := 0 to |rows|
        invariant !HasId(rows[..i], "sha256:" + hex)
      {
        if rows[i].rec.id == "sha256:" + hex { return Some(rows[i].rec.envelope); }
      }
      assert rows[..|rows|] == rows;
      return None;
    }
  }

  // ---------------------------------------------------------------- admission

  function StrOf(v: Option<Value>): Option<string> { if v.Some? && v.value.Str? then Some(v.value.s) else None }

  function OrEmpty(s: Option<string>): string { if s.Some? then s.value else "" }

  /** The columns of an envelope and its canonical bytes. */
  function Derive(c: Suite, env: Members, id: string): Record {
    var u := Unsigned(env);
    Record(id, Canonical(c, env), OrEmpty(StrOf(Field(u, "type"))), OrEmpty(StrOf(Field(env, "actor"))),
           if IsChannel(u) then Some(id) else StrOf(Field(u, "channel")),
           StrOf(SubField(Reference(u), "hash")))
  }

  /** local_work_ok: the id read as a number against the target of the multiplied units. */
  predicate LocalWork(id: string, units: nat, multiplier: Positive) {
    IsSha256Id(id) && units > 0 && HexInt(id[7..]) <= MAX_H / (units * UNIT_SCALE * multiplier)
  }

  function RefLocators(u: Members): seq<Value> {
    Items(SubField(if IsPointer(u) then Field(u, "ref") else Field(u, "descriptor"), "locators"))
  }

  predicate LocatorsWithin(locs: seq<Value>, cfg: Config) {
    && |locs| <= cfg.maxLocators
    && forall i :: 0 <= i < |locs| && locs[i].Str? ==> Utf8Len(locs[i].s) <= cfg.maxLocatorBytes
  }

  /** Local policy on a valid envelope. */
  predicate Permits(cfg: Config, env: Members, id: string, units: nat) {
    var u := Unsigned(env);
    && !(cfg.blockActor != "" && OrEmpty(StrOf(Field(env, "actor"))) == cfg.blockActor)
    && !(cfg.blockChannel != "" && OrEmpty(StrOf(Field(env, "channel"))) == cfg.blockChannel)
    && LocalWork(id, units, cfg.multiplier)
    && LocatorsWithin(RefLocators(u), cfg)
    && |Items(Field(u, "parents"))| <= cfg.maxParents
  }

  datatype Judgement = TooLarge | UnsupportedAssertion | InvalidAssertion | PolicyRefused | Admitted(rec: Record)

  /** do_POST up to the store: size, section 20, local policy. */
  function Judge(c: Suite, cfg: Config, body: string): Judgement {
    if Utf8Len(body) > cfg.maxRecord then TooLarge
    else
      match ValidateText(c, body)
      case Unsupported => UnsupportedAssertion
      case Invalid => InvalidAssertion
      case Valid(id, units) =>
        var env := ParseObject(c.fp, body).value.members;
        if Permits(cfg, env, id, units) then Admitted(Derive(c, env, id)) else PolicyRefused
  }

  function Posted(c: Suite, cfg: Config, db: Db, body: string): Db {
    match Judge(c, cfg, body)
    case Admitted(rec) => Added(db, rec)
    case _ => db
  }

  datatype Reply = Refusal(why: Judgement) | Accepted(id: string, duplicate: bool)

  function ReplyTo(c: Suite, cfg: Config, db: Db, body: string): Reply {
    match Judge(c, cfg, body)
    case Admitted(rec) => Accepted(rec.id, HasId(db.rows, rec.id))
    case why => Refusal(why)
  }

  class Server {
    const c: Suite
    const cfg: Config
    const store: Store

    constructor (c: Suite, cfg: Config)
      ensures this.c == c && this.cfg == cfg && fresh(store) && store.State() == EMPTY
    {
      this.c, this.cfg := c, cfg;
      store := new Store();
    }

    /** do_POST once the body is read: early returns, then one state change. */
    method Post(body: string) returns (r: Reply)
      requires Faithful(c.fp)
      modifies store
      ensures store.State() == Posted(c, cfg, old(store.State()), body)
      ensures r == ReplyTo(c, cfg, old(store.State()), body)
    {
      hide Faithful, Added, PyValidate, Derive, LocalWork, LocatorsWithin, Unsigned, RefLocators, HasId, Parse, Print,
           Numeric;
      if Utf8Len(body) > cfg.maxRecord { return Refusal(TooLarge); }
      var info := PyValidateBytes(c, body);
      if info == Unsupported { return Refusal(UnsupportedAssertion); }
      if info == Invalid { return Refusal(InvalidAssertion); }
      var env := PyParseObject(c.fp, body);
      var obj := env.value.members;
      ObjectNumeric(c, body);
      var canonical := PyCanonicalize(c.fp, Obj(obj));
      var actor := OrEmpty(StrOf(Field(obj, "actor")));
      if cfg.blockActor != "" && actor == cfg.blockActor { return Refusal(PolicyRefused); }
      if cfg.blockChannel != "" && OrEmpty(StrOf(Field(obj, "channel"))) == cfg.blockChannel {
        return Refusal(PolicyRefused);
      }
      if !LocalWork(info.id, info.units, cfg.multiplier) { return Refusal(PolicyRefused); }
      var u := Unsigned(obj);
      if !LocatorsWithin(RefLocators(u), cfg) { return Refusal(PolicyRefused); }
      if |Items(Field(u, "parents"))| > cfg.maxParents { return Refusal(PolicyRefused); }
      var channel, hash;
      if IsChannel(u) {
        channel, hash := Some(info.id), StrOf(SubField(Field(u, "descriptor"), "hash"));
      } else {
        channel, hash := StrOf(Field(u, "channel")), StrOf(SubField(Field(u, "ref"), "hash"));
      }
      ColumnsDerive(c, body, channel, hash);
      var inserted := store.Add(Record(info.id, canonical, OrEmpty(StrOf(Field(u, "type"))), actor, channel, hash));
      return Accepted(info.id, !inserted);
    }
  }

  lemma ObjectNumeric(c: Suite, body: string)
    requires Faithful(c.fp) && ParseObject(c.fp, body).Some?
    ensures Numeric(c.fp, ParseObject(c.fp, body).value)
  {
    hide Numeric;
    ParsedObject(c, body);
    SoundNumeric(c.fp, ParseObject(c.fp, body).value);
  }

  /** A valid text: its object, its U, and the section 20 facts about them. */
  lemma ValidFacts(c: Suite, body: string)
    requires Faithful(c.fp) && ValidateText(c, body).Valid?
    ensures ParseObject(c.fp, body).Some?
    ensures var env := ParseObject(c.fp, body).value.members;
            var u := Unsigned(env);
            && Parsed(c, env) && NoDup(Obj(u)) && PyValidate(c, env) == ValidateText(c, body)
            && VersionAndType(u) && Schema(u)
  {
    hide Parse, PyValidate, Unsigned, VersionAndType, Schema, Identifiers, NonceAndCreated, Lengths, IdMatches,
         WorkDone, SignatureVerifies,
         NoDup, Sound, Faithful;
    var env := ParseObject(c.fp, body).value.members;
    ParsedObject(c, body);
    VerdictsAgree(c, env);
    UnsignedNoDup(env);
  }

  lemma ColumnsDerive(c: Suite, body: string, channel: Option<string>, hash: Option<string>)
    requires Faithful(c.fp) && ValidateText(c, body).Valid?
    requires ParseObject(c.fp, body).Some?
    requires var env := ParseObject(c.fp, body).value.members;
             var u := Unsigned(env);
             && channel == (if IsChannel(u) then Some(ValidateText(c, body).id) else StrOf(Field(u, "channel")))
             && hash == StrOf(SubField(if IsChannel(u) then Field(u, "descriptor") else Field(u, "ref"), "hash"))
    ensures var env := ParseObject(c.fp, body).value.members;
            var u := Unsigned(env);
            var id := ValidateText(c, body).id;
            Derive(c, env, id) ==
                Record(id, Print(c.fp, Obj(env)), OrEmpty(StrOf(Field(u, "type"))), OrEmpty(StrOf(Field(env, "actor"))),
                    channel, hash)
  {
    hide Parse, PyValidate, Unsigned, Schema, NoDup, Sound, Faithful, Lookup, Print;
    ValidFacts(c, body);
  }
}
