/** Admission said of the assertion in the submission: what local policy refuses and what the stored row holds. */
module Admission {
  import opened Values
  import opened Decimals
  import opened Bytes
  import opened RoundTrip
  import opened Documents
  import opened Protocol
  import opened GoVerify
  import opened Validation
  import opened Revalidation
  import opened Relay
  import opened RelayRuns
  import opened Pages
  import opened Assertions
  import Utf8

  // ---------------------------------------------------------------- policy and columns of an assertion

  /** The limits of one relay on an assertion with this digest and these units. */
  ghost predicate Allowed(cfg: Config, a: Assertion, d: Digest, units: nat) {
    && (cfg.blockActor != "" ==> ActorText(a.actor) != cfg.blockActor)
    && (cfg.blockChannel != "" && a.kind.Pointer? ==> IdText(a.kind.channel) != cfg.blockChannel)
    && Done(d, units * cfg.multiplier)
    && |LocatorTexts(a)| <= cfg.maxLocators
    && (forall i :: 0 <= i < |LocatorTexts(a)| ==> |Utf8.Utf8(LocatorTexts(a)[i])| <= cfg.maxLocatorBytes)
    && |ParentIds(a)| <= cfg.maxParents
  }

  /** A channel description is in its own channel, and has an object only when it has a descriptor. */
  function RowOf(a: Assertion, id: string, envelope: string): Record {
    match a.kind
    case Pointer(ch, r, _) =>
      Record(id, envelope, "pointer", ActorText(a.actor), Some(IdText(ch)), Some(IdText(r.hash)))
    case Channel(d) =>
      Record(id, envelope, "channel", ActorText(a.actor), Some(id),
        if d.Some? then Some(IdText(d.value.hash)) else None)
  }

  // ---------------------------------------------------------------- on the members

  lemma SameFields(obj: Members, a: Assertion)
    requires Writes(obj, a)
    ensures var u := Unsigned(obj);
            && Writes(u, a)
            && Lookup(obj, "actor") == Some(Str(ActorText(a.actor)))
            && Lookup(obj, "channel") == if a.kind.Pointer? then Some(Str(IdText(a.kind.channel))) else None
  {
    hide Lookup, Unsigned, ActorText, IdText, PlainField, WritesRefOpt;
    WritesUnsigned(obj, a);
    FieldsAt(obj, a);
  }

  lemma ColumnsWritten(c: Suite, obj: Members, a: Assertion, id: string)
    requires Writes(obj, a)
    ensures Derive(c, obj, id) == RowOf(a, id, Canonical(c, obj))
  {
    hide Lookup, Unsigned, ActorText, IdText, PlainField, WritesRef, RefShape, Canonical, IsIdStr;
    SameFields(obj, a);
    var u := Unsigned(obj);
    FieldsAt(u, a);
    HashWritten(u, a);
  }

  lemma HashWritten(u: Members, a: Assertion)
    requires Writes(u, a)
    ensures var r := if a.kind.Pointer? then Some(a.kind.ref) else a.kind.descriptor;
            StrOf(SubField(Reference(u), "hash")) == if r.Some? then Some(IdText(r.value.hash)) else None
  {
    hide Lookup, IdText, PlainField, WritesRef, Names, IsStrings, IsIdStr;
    RefWrittenOpt(u, a);
    var r := if a.kind.Pointer? then Some(a.kind.ref) else a.kind.descriptor;
    if r.Some? { RefWritten(Reference(u).value, r.value); }
  }

  lemma LocatorsWritten(cfg: Config, u: Members, a: Assertion)
    requires Writes(u, a)
    ensures LocatorsWithin(RefLocators(u), cfg) <==>
            && |LocatorTexts(a)| <= cfg.maxLocators
            && forall i :: 0 <= i < |LocatorTexts(a)| ==> |Utf8.Utf8(LocatorTexts(a)[i])| <= cfg.maxLocatorBytes
  {
    hide Lookup, WritesRefOpt, Plains, PlainField, IdText, Utf8Len, Utf8.Utf8, LocatorTexts;
    RefWrittenOpt(u, a);
    KindWritten(u, a);
    var locs := LocatorTexts(a);
    assert RefLocators(u) == Strs(locs).elems;
    forall i | 0 <= i < |locs| ensures |Utf8.Utf8(locs[i])| == Utf8Len(locs[i]) { Utf8.LengthIsOctets(locs[i]); }
    forall i | 0 <= i < |locs| ensures RefLocators(u)[i] == Str(locs[i]) {}
  }

  lemma KindWritten(u: Members, a: Assertion)
    requires Writes(u, a)
    ensures IsPointer(u) == a.kind.Pointer? && IsChannel(u) == a.kind.Channel?
  {
    hide Lookup, PlainField, IdText, WritesRefOpt;
    FieldsAt(u, a);
  }

  lemma WorkWritten(d: Digest, units: nat, m: Positive)
    requires units > 0
    ensures LocalWork(IdOf(d), units, m) <==> Done(d, units * m)
  {
    hide LocalWork, Done, IdOf, BigEndianInt, Target;
    LocalWorkOfId(d, units, m);
    DoneIff(d, units * m);
  }

  /** Local policy is the limits on the assertion. */
  lemma PermitsMeans(cfg: Config, obj: Members, a: Assertion, d: Digest, units: nat)
    requires Writes(obj, a) && units > 0
    ensures Permits(cfg, obj, IdOf(d), units) <==> Allowed(cfg, a, d, units)
  {
    hide Lookup, Unsigned, ActorText, IdText, Writes, Done, LocalWork, IdOf, LocatorsWithin, RefLocators, LocatorTexts,
         Utf8.Utf8;
    SameFields(obj, a);
    var u := Unsigned(obj);
    LocatorsWritten(cfg, u, a);
    WorkWritten(d, units, cfg.multiplier);
    ParentsCount(u, a);
    TaggedTexts(a);
  }

  lemma TaggedTexts(a: Assertion)
    ensures ActorText(a.actor) != "" && (a.kind.Pointer? ==> IdText(a.kind.channel) != "")
  {
  }

  lemma ParentsCount(u: Members, a: Assertion)
    requires Writes(u, a)
    ensures |Items(Field(u, "parents"))| == |ParentIds(a)|
  {
    hide Lookup, IdText, PlainField, WritesRefOpt;
    FieldsAt(u, a);
  }

  // ---------------------------------------------------------------- submissions

  /** A valid text within size is stored exactly when every limit on its assertion is kept, and refused as local policy
      otherwise; what is stored are the columns of that assertion. */
  lemma AdmittedIff(c: Suite, cfg: Config, body: string, a: Assertion)
    requires Faithful(c.fp) && ValidateText(c, body).Valid? && Holds(c, body, a)
    ensures var v := ValidateText(c, body);
            var env := ParseObject(c.fp, body).value.members;
            Judge(c, cfg, body) ==
            if |Utf8.Utf8(body)| > cfg.maxRecord then TooLarge
            else if !Allowed(cfg, a, DigestOf(c, body), v.units) then PolicyRefused
            else Admitted(RowOf(a, v.id, Canonical(c, env)))
  {
    hide Faithful, PyValidate, Parse, Writes, Allowed, RowOf, Derive, Permits, Canonical, Unsigned, Utf8Len, Utf8.Utf8,
         Units, IdOf;
    Utf8.LengthIsOctets(body);
    var env := ParseObject(c.fp, body).value.members;
    var v := ValidateText(c, body);
    ValidShape(c, env);
    ColumnsWritten(c, env, a, v.id);
    PermitsMeans(cfg, env, a, DigestOf(c, body), v.units);
  }

  /** Any other text is refused for its size, its version or its invalidity, in that order. */
  lemma OthersRefused(c: Suite, cfg: Config, body: string)
    requires !ValidateText(c, body).Valid?
    ensures Judge(c, cfg, body) ==
            if |Utf8.Utf8(body)| > cfg.maxRecord then TooLarge
            else if ValidateText(c, body).Unsupported? then UnsupportedAssertion
            else InvalidAssertion
  {
    hide ValidateText, Utf8Len, Utf8.Utf8;
    Utf8.LengthIsOctets(body);
  }

  // ---------------------------------------------------------------- rows

  /** The stored text holds an assertion within the limits of the relay, and the row its columns. */
  ghost predicate Lawful(c: Suite, cfg: Config, rec: Record, a: Assertion) {
    var v := ValidateText(c, rec.envelope);
    && v.Valid? && Holds(c, rec.envelope, a)
    && Allowed(cfg, a, DigestOf(c, rec.envelope), v.units)
    && rec == RowOf(a, v.id, rec.envelope)
  }

  lemma RowLawful(c: Suite, cfg: Config, rec: Record)
    requires Faithful(c.fp) && Authentic(c, rec) && WithinPolicy(c, cfg, rec)
    ensures exists a :: Lawful(c, cfg, rec, a)
  {
    hide Faithful, PyValidate, Parse, Writes, Allowed, RowOf, Derive, Permits, Canonical, Unsigned, Units, IdOf;
    HoldsOne(c, rec.envelope);
    var a :| Holds(c, rec.envelope, a);
    var env := ParseObject(c.fp, rec.envelope).value.members;
    var v := ValidateText(c, rec.envelope);
    ValidShape(c, env);
    ColumnsWritten(c, env, a, v.id);
    PermitsMeans(cfg, env, a, DigestOf(c, rec.envelope), v.units);
    RowText(a, v.id, Canonical(c, env), rec);
    assert rec == RowOf(a, v.id, rec.envelope);
    assert Allowed(cfg, a, DigestOf(c, rec.envelope), v.units);
    assert Lawful(c, cfg, rec, a);
  }

  lemma RowText(a: Assertion, id: string, text: string, rec: Record)
    requires rec == RowOf(a, id, text)
    ensures text == rec.envelope
  {
  }

  /** Every row that a relay reaches from its empty tables holds an assertion within its limits. */
  lemma RunLawful(c: Suite, cfg: Config, bodies: seq<string>, i: nat)
    requires Faithful(c.fp) && i < |Run(c, cfg, EMPTY, bodies).rows|
    ensures exists a :: Lawful(c, cfg, Run(c, cfg, EMPTY, bodies).rows[i].rec, a)
  {
    hide Faithful, Authentic, WithinPolicy, Run, Lawful;
    RunFromEmpty(c, cfg, bodies, "");
    RowLawful(c, cfg, Run(c, cfg, EMPTY, bodies).rows[i].rec);
  }

  /** Which listings a row appears in: those of its channel, of its object, and of advertised channels. */
  lemma ListedWhere(c: Suite, cfg: Config, r: Row, a: Assertion, id: string)
    requires Lawful(c, cfg, r.rec, a)
    ensures Matches(InChannel(id), r) <==> id == if a.kind.Pointer? then IdText(a.kind.channel) else r.rec.id
    ensures Matches(OnObject(id), r) <==>
            (a.kind.Pointer? && id == IdText(a.kind.ref.hash))
                || (a.kind.Channel? && a.kind.descriptor.Some? && id == IdText(a.kind.descriptor.value.hash))
    ensures Matches(Advertised, r) <==> a.kind.Channel?
  {
    hide ValidateText, Holds, Allowed, IdText, ActorText;
    KindsDiffer();
  }

  /** In terms of the columns: no row of a blocked actor, and no pointer of a blocked channel. */
  lemma NothingBlocked(c: Suite, cfg: Config, bodies: seq<string>, i: nat)
    requires Faithful(c.fp) && i < |Run(c, cfg, EMPTY, bodies).rows|
    ensures var rec := Run(c, cfg, EMPTY, bodies).rows[i].rec;
            && (cfg.blockActor != "" ==> rec.actor != cfg.blockActor)
            && (cfg.blockChannel != "" && rec.kind == "pointer" ==> rec.channel != Some(cfg.blockChannel))
  {
    hide Faithful, Run, Utf8.Utf8, ActorText, IdText, Holds, Done;
    RunLawful(c, cfg, bodies, i);
    KindsDiffer();
    var a :| Lawful(c, cfg, Run(c, cfg, EMPTY, bodies).rows[i].rec, a);
  }
}
