/** The polling client: what it learns from relays, and which objects it stores. */
module Polling {
  import opened Values
  import opened Decimals
  import opened Bytes
  import opened Protocol
  import opened Documents
  import opened RoundTrip
  import opened Validation
  import opened Relay
  import opened Federation
  import opened Printing
  import opened Lists
  import Sorting

  /** What the outside answers: the octets behind a locator, if they can be fetched, and the SHA-256
      identifier of octets. */
  datatype Web = Web(fetch: string -> Option<seq<Byte>>, objectId: seq<Byte> -> string)

  /** The client's saved state, and the object files by identifier. */
  datatype Known = Known(seen: seq<string>, objects: seq<string>, files: map<string, seq<Byte>>)

  /** One line of the report. */
  datatype Finding = Refused | Again(id: string) | Fresh(id: string, stored: bool)

  datatype Poll = Poll(known: Known, processed: set<string>, findings: seq<Finding>)

  function Locs(v: Option<Value>): seq<Value> { Items(SubField(v, "locators")) }

  /** The data behind a locator, when its hash is the wanted one. */
  function Fetched(web: Web, want: string, loc: Value): Option<seq<Byte>> {
    if !loc.Str? then None
    else
      match web.fetch(loc.s)
      case Some(data) => if web.objectId(data) == want then Some(data) else None
      case None => None
  }

  /** The data of the first locator that serves what is wanted. */
  function FirstMatch(web: Web, want: string, locs: seq<Value>): Option<seq<Byte>> {
    if locs == [] then None
    else if Fetched(web, want, locs[0]).Some? then Fetched(web, want, locs[0])
    else FirstMatch(web, want, locs[1..])
  }

  /** The object hash of a pointer-type assertion. */
  function Wanted(c: Suite, raw: string): Option<string> {
    match ParseObject(c.fp, raw)
    case Some(v) => if IsPointer(v.members) then StrOf(SubField(Field(v.members, "ref"), "hash")) else None
    case None => None
  }

  function Found(c: Suite, web: Web, raw: string): Option<seq<Byte>> {
    match (ParseObject(c.fp, raw), Wanted(c, raw))
    case (Some(v), Some(want)) => FirstMatch(web, want, Locs(Field(v.members, "ref")))
    case _ => None
  }

  function Learn(c: Suite, web: Web, k: Known, id: string, raw: string): Known {
    match (Wanted(c, raw), Found(c, web, raw))
    case (Some(want), Some(data)) =>
      Known(
        k.seen + [id],
        if want in k.objects then k.objects else k.objects + [want],
        if want in k.files then k.files else k.files[want := data])
    case _ => k.(seen := k.seen + [id])
  }

  /** consider on an object that was served, by its dumped text. */
  function Considered(c: Suite, web: Web, p: Poll, raw: string): Poll {
    match ValidateText(c, raw)
    case Valid(id, _) =>
      if id in p.processed then p
      else if id in p.known.seen then Poll(p.known, p.processed + {id}, p.findings + [Again(id)])
      else Poll(Learn(c, web, p.known, id, raw), p.processed + {id}, p.findings + [Fresh(id, Found(c, web, raw).Some?)])
    case _ => p.(findings := p.findings + [Refused])
  }

  function Learned(c: Suite, web: Web, k: Known, texts: seq<string>): Poll
    decreases |texts|
  {
    if texts == [] then Poll(k, {}, [])
    else Considered(c, web, Learned(c, web, k, texts[..|texts| - 1]), texts[|texts| - 1])
  }

  // ---------------------------------------------------------------- what relays serve

  /** What a poll meets next: an element of `items`, an object or not, with its dumped text unless it cannot be
      encoded; or something the code cannot go on with: a page that is not an object, an `items` that cannot be
      iterated, a `next` that is not a string. */
  datatype Event = Item(isObject: bool, text: Option<string>) | Broken

  datatype Next = Stop | More | NotText

  /** One reply: a failed request or unreadable page, which ends the relay's turn; a page the code stumbles over;
      or a page with its elements and cursor. */
  datatype Reply = Failed | Unusable | Page(items: seq<Event>, next: Next)

  /** What one relay's replies bring the client to meet. */
  function Events(replies: seq<Reply>): seq<Event> {
    if replies == [] then []
    else
      match replies[0]
      case Failed => []
      case Unusable => [Broken]
      case Page(items, next) =>
        items + (match next
                 case Stop => []
                 case NotText => [Broken]
                 case More => Events(replies[1..]))
  }

  /** A poll goes on, or has died with the object files written so far. */
  datatype Course = Going(p: Poll) | Dead(files: map<string, seq<Byte>>)

  /** One turn: a refused item is reported through its `get`, which only objects have. */
  function Turn(c: Suite, web: Web, p: Poll, e: Event): Course {
    if e.Broken? || e.text == None then Dead(p.known.files)
    else if !ValidateText(c, e.text.value).Valid? && !e.isObject then Dead(p.known.files)
    else Going(Considered(c, web, p, e.text.value))
  }

  function Polled(c: Suite, web: Web, k: Known, events: seq<Event>): Course
    decreases |events|
  {
    if events == [] then Going(Poll(k, {}, []))
    else
      match Polled(c, web, k, events[..|events| - 1])
      case Dead(files) => Dead(files)
      case Going(p) => Turn(c, web, p, events[|events| - 1])
  }

  /** What is on disk afterwards: the new state, or the old one with the files written meanwhile. */
  function Saved(k: Known, course: Course): Known {
    match course
    case Going(p) => p.known
    case Dead(files) => k.(files := files)
  }

  class Client {
    const c: Suite
    const web: Web
    var saved: Known
    var seen: seq<string>
    var objects: seq<string>
    var files: map<string, seq<Byte>>
    var processed: set<string>
    var findings: seq<Finding>

    constructor (c: Suite, web: Web, k: Known)
      ensures this.c == c && this.web == web && Disk() == k
    {
      this.c, this.web := c, web;
      saved, seen, objects, files, processed, findings := k, k.seen, k.objects, k.files, {}, [];
    }

    /** The poll in memory. */
    function State(): Poll
      reads this
    {
      Poll(Known(seen, objects, files), processed, findings)
    }

    /** The state file and the object files. */
    function Disk(): Known
      reads this
    {
      saved.(files := files)
    }

    /** Try the locators in order, keep the first data that has the wanted hash. */
    method FetchFirst(want: string, locs: seq<Value>) returns (r: Option<seq<Byte>>)
      ensures r == FirstMatch(web, want, locs)
    {
      for i := 0 to |locs|
        invariant FirstMatch(web, want, locs) == FirstMatch(web, want, locs[i..])
      {
        assert locs[i..][1..] == locs[i + 1..];
        if locs[i].Str? {
          var data := web.fetch(locs[i].s);
          if data.Some? && web.objectId(data.value) == want { return data; }
        }
      }
      return None;
    }

    /** consider: false is the exception that ends the program. */
    method Consider(e: Event) returns (ok: bool)
      requires Faithful(c.fp)
      modifies this
      ensures saved == old(saved)
      ensures Turn(c, web, old(State()), e) == if ok then Going(State()) else Dead(files)
    {
      hide Faithful, PyValidate, Parse, FirstMatch, Lookup, Names;
      if e.Broken? || e.text == None { return false; }
      var raw := e.text.value;
      var info := PyValidateBytes(c, raw);
      if !info.Valid? {
        if !e.isObject { return false; }
        findings := findings + [Refused];
        return true;
      }
      if info.id in processed { return true; }
      processed := processed + {info.id};
      if info.id in seen { findings := findings + [Again(info.id)]; return true; }
      seen := seen + [info.id];
      var v := PyParseObject(c.fp, raw);
      var env := v.value.members;
      var data: Option<seq<Byte>> := None;
      var want := StrOf(SubField(Field(env, "ref"), "hash"));
      if IsPointer(env) && want.Some? {
        data := FetchFirst(want.value, Locs(Field(env, "ref")));
        if data.Some? {
          if want.value !in files { files := files[want.value := data.value]; }
          if want.value !in objects { objects := objects + [want.value]; }
        }
      }
      findings := findings + [Fresh(info.id, data.Some?)];
      return true;
    }

    /** The elements of one page. */
    method ReadItems(ghost k: Known, ghost before: seq<Event>, items: seq<Event>) returns (ok: bool)
      requires Faithful(c.fp) && Polled(c, web, k, before) == Going(State())
      modifies this
      ensures saved == old(saved)
      ensures ok ==> Polled(c, web, k, before + items) == Going(State())
      ensures !ok ==> forall rest :: Polled(c, web, k, before + (items + rest)) == Dead(files)
    {
      hide Faithful, Turn;
      assert before + items[..0] == before;
      for j := 0 to |items|
        invariant saved == old(saved) && Polled(c, web, k, before + items[..j]) == Going(State())
      {
        ghost var upTo := before + items[..j + 1];
        assert upTo[..|upTo| - 1] == before + items[..j] && upTo[|upTo| - 1] == items[j];
        ok := Consider(items[j]);
        if !ok {
          forall rest ensures Polled(c, web, k, before + (items + rest)) == Dead(files) {
            DeadStays(c, web, k, upTo, items[j + 1..] + rest);
            assert upTo + (items[j + 1..] + rest) == before + (items + rest);
          }
          return;
        }
      }
      assert items[..|items|] == items;
      ok := true;
    }

    /** The page loop of one relay. */
    method ReadRelay(ghost k: Known, ghost before: seq<Event>, replies: seq<Reply>) returns (ok: bool)
      requires Faithful(c.fp) && Polled(c, web, k, before) == Going(State())
      modifies this
      ensures saved == old(saved)
      ensures Polled(c, web, k, before + Events(replies)) == if ok then Going(State()) else Dead(files)
    {
      hide Faithful, Polled;
      var i := 0;
      ghost var done := before;
      while i < |replies|
        invariant i <= |replies| && saved == old(saved) && Polled(c, web, k, done) == Going(State())
        invariant before + Events(replies) == done + Events(replies[i..])
        decreases |replies| - i
      {
        ghost var left := replies[i..];
        assert left[1..] == replies[i + 1..];
        match replies[i] {
          case Failed =>
            assert done + [] == done;
            return true;
          case Unusable =>
            BrokenKills(c, web, k, done, State());
            return false;
          case Page(items, next) =>
            ghost var rest := match next case Stop => [] case NotText => [Broken] case More => Events(left[1..]);
            ok := ReadItems(k, done, items);
            assert done + Events(left) == done + (items + rest);
            assert done + (items + rest) == (done + items) + rest;
            if !ok { return; }
            done := done + items;
            if next == NotText { BrokenKills(c, web, k, done, State()); return false; }
            if next == Stop { assert done + [] == done; return true; }
        }
        i := i + 1;
      }
      assert done + [] == done;
      return true;
    }

    /** cmd_poll: load the state, read every relay in turn, save the state. False is a poll that died. */
    method Run(served: seq<seq<Reply>>) returns (done: bool)
      requires Faithful(c.fp)
      modifies this
      ensures var course := Polled(c, web, old(Disk()), Met(served));
              && (done <==> course.Going?) && Disk() == Saved(old(Disk()), course)
              && (done ==> State() == course.p)
    {
      hide Faithful, Events, Turn;
      ghost var k := Disk();
      seen, objects, processed, findings := saved.seen, saved.objects, {}, [];
      for i := 0 to |served|
        invariant saved == old(saved) && Polled(c, web, k, Met(served[..i])) == Going(State())
      {
        assert served[..i + 1][..i] == served[..i];
        var ok := ReadRelay(k, Met(served[..i]), served[i]);
        if !ok {
          MetSplit(served, i + 1);
          DeadStays(c, web, k, Met(served[..i + 1]), Met(served[i + 1..]));
          return false;
        }
      }
      assert served[..|served|] == served;
      saved := Known(seen, objects, files);
      return true;
    }
  }

  /** Relay by relay. */
  function Met(served: seq<seq<Reply>>): seq<Event> {
    if served == [] then [] else Met(served[..|served| - 1]) + Events(served[|served| - 1])
  }

  lemma {:induction false} MetSplit(served: seq<seq<Reply>>, i: nat)
    requires i <= |served|
    ensures Met(served) == Met(served[..i]) + Met(served[i..])
  {
    hide Events;
    if i == |served| {
      assert served[..i] == served && served[i..] == [];
    } else {
      var init := served[..|served| - 1];
      MetSplit(init, i);
      assert init[..i] == served[..i] && served[i..][..|served| - i - 1] == init[i..];
      assert Met(served[i..]) == Met(init[i..]) + Events(served[|served| - 1]);
    }
  }

  lemma {:induction false} DeadStays(c: Suite, web: Web, k: Known, a: seq<Event>, b: seq<Event>)
    requires Polled(c, web, k, a).Dead?
    ensures Polled(c, web, k, a + b) == Polled(c, web, k, a)
    decreases |b|
  {
    hide Turn;
    if b == [] {
      assert a + b == a;
    } else {
      DeadStays(c, web, k, a, b[..|b| - 1]);
      assert (a + b)[..|a + b| - 1] == a + b[..|b| - 1];
    }
  }

  lemma BrokenKills(c: Suite, web: Web, k: Known, before: seq<Event>, p: Poll)
    requires Polled(c, web, k, before) == Going(p)
    ensures Polled(c, web, k, before + [Broken]) == Dead(p.known.files)
  {
    assert (before + [Broken])[..|before|] == before;
  }

  // ---------------------------------------------------------------- when a poll completes

  /** json.dumps of something that is not an object is not the text of an object. */
  predicate Dumps(c: Suite, e: Event) {
    e.Item? && !e.isObject && e.text.Some? ==> ParseObject(c.fp, e.text.value) == None
  }

  ghost predicate AllDump(c: Suite, events: seq<Event>) { forall i :: 0 <= i < |events| ==> Dumps(c, events[i]) }

  /** An object that can be encoded. */
  predicate Fine(e: Event) { e.Item? && e.isObject && e.text.Some? }

  predicate AllFine(events: seq<Event>) { forall i :: 0 <= i < |events| ==> Fine(events[i]) }

  function Texts(events: seq<Event>): (ts: seq<string>)
    requires AllFine(events)
    ensures |ts| == |events|
  {
    seq(|events|, i requires 0 <= i < |events| => assert Fine(events[i]); events[i].text.value)
  }

  /** Anything printed that is not an object is such a text. */
  lemma PrintDumps(c: Suite, v: Value)
    requires Faithful(c.fp) && Sound(c.fp, v) && NoDup(v) && !v.Obj?
    ensures Dumps(c, Item(false, Some(Print(c.fp, v))))
  {
    hide Faithful, Parse, Print, Sound, NoDup;
    ParseOfPrint(c.fp, v);
    CanonNoObject(v);
  }

  lemma CanonNoObject(v: Value)
    requires !v.Obj?
    ensures !Sorting.Canon(v).Obj?
  {
  }

  lemma TurnIff(c: Suite, web: Web, p: Poll, e: Event)
    requires Dumps(c, e)
    ensures Turn(c, web, p, e) == if Fine(e) then Going(Considered(c, web, p, e.text.value)) else Dead(p.known.files)
  {
    hide Parse, PyValidate, Considered;
  }

  /** A poll completes exactly when everything it meets is an object it can encode; then it is considering the
      objects in order. */
  lemma {:induction false} CompletesIff(c: Suite, web: Web, k: Known, events: seq<Event>)
    requires AllDump(c, events)
    ensures Polled(c, web, k, events).Going? <==> AllFine(events)
    ensures AllFine(events) ==> Polled(c, web, k, events) == Going(Learned(c, web, k, Texts(events)))
    decreases |events|
  {
    hide Turn, Dumps, Considered, Fine;
    if events != [] {
      var m := |events| - 1;
      CompletesIff(c, web, k, events[..m]);
      assert Dumps(c, events[m]);
      if Polled(c, web, k, events[..m]).Going? { TurnIff(c, web, Polled(c, web, k, events[..m]).p, events[m]); }
      assert events == events[..m] + [events[m]];
      if AllFine(events) { TextsNext(events); }
    }
  }

  lemma TextsNext(events: seq<Event>)
    requires events != [] && AllFine(events)
    ensures var m := |events| - 1;
            && AllFine(events[..m]) && Fine(events[m])
            && Texts(events) == Texts(events[..m]) + [events[m].text.value]
            && Texts(events)[..m] == Texts(events[..m]) && Texts(events)[m] == events[m].text.value
  {
    var m := |events| - 1;
    forall i | 0 <= i < m ensures Fine(events[..m][i]) { assert Fine(events[i]); }
    assert Fine(events[m]);
  }

  /** One element that is not an object makes the client forget every id the poll has learned. */
  lemma OneItemLosesAll(c: Suite, web: Web, k: Known, t: string)
    requires Faithful(c.fp) && ValidateText(c, t).Valid? && ValidateText(c, t).id !in k.seen
    ensures var first, x := Item(true, Some(t)), Item(false, Some("\"x\""));
            && ValidateText(c, t).id in Saved(k, Polled(c, web, k, [first])).seen
            && ValidateText(c, t).id !in Saved(k, Polled(c, web, k, [first, x])).seen
  {
    hide Faithful, ValidateText, Learned, Turn, Dumps;
    var first, x := Item(true, Some(t)), Item(false, Some("\"x\""));
    TextX(c);
    ObjectDumps(c, t);
    CompletesIff(c, web, k, [first]);
    CompletesIff(c, web, k, [first, x]);
    assert [first, x][1] == x && !Fine(x);
    assert Texts([first]) == [t] && [t][..0] == [];
    LearnsOne(c, web, k, t);
  }

  lemma ObjectDumps(c: Suite, t: string)
    ensures Dumps(c, Item(true, Some(t)))
  {
  }

  lemma TextX(c: Suite)
    requires Faithful(c.fp)
    ensures Dumps(c, Item(false, Some("\"x\"")))
  {
    hide Faithful, Dumps, Print;
    assert Print(c.fp, Str("x")) == "\"x\"" by { PrintX(c); }
    PrintDumps(c, Str("x"));
  }

  lemma PrintX(c: Suite)
    ensures Print(c.fp, Str("x")) == "\"x\""
  {
    assert EscapeAll("x") == "x" + EscapeAll("");
  }

  lemma LearnsOne(c: Suite, web: Web, k: Known, t: string)
    requires ValidateText(c, t).Valid? && ValidateText(c, t).id !in k.seen
    ensures ValidateText(c, t).id in Learned(c, web, k, [t]).known.seen
  {
    hide ValidateText, Wanted, Found;
    assert [t][..0] == [];
    assert Learned(c, web, k, []) == Poll(k, {}, []);
  }

  // ---------------------------------------------------------------- what is learned

  lemma ConsideredMeans(c: Suite, web: Web, p: Poll, raw: string)
    ensures var q := Considered(c, web, p, raw);
            var v := ValidateText(c, raw);
            && q.processed == (if v.Valid? then p.processed + {v.id} else p.processed)
            && q.known.seen ==
               p.known.seen + (if v.Valid? && v.id !in p.processed && v.id !in p.known.seen then [v.id] else [])
  {
    hide ValidateText, Wanted, Found;
  }

  lemma {:induction false} SeenLearned(c: Suite, web: Web, k: Known, texts: seq<string>)
    requires NoRepeats(k.seen)
    ensures var p := Learned(c, web, k, texts);
            && p.processed == ValidIds(c, texts) && k.seen <= p.known.seen && NoRepeats(p.known.seen)
            && forall id :: id in p.known.seen <==> id in k.seen || id in ValidIds(c, texts)
    decreases |texts|
  {
    hide ValidateText, Considered, ValidIds;
    if texts != [] {
      var m := |texts| - 1;
      SeenLearned(c, web, k, texts[..m]);
      ConsideredMeans(c, web, Learned(c, web, k, texts[..m]), texts[m]);
      ValidIdsNext(c, texts);
    } else {
      NoItems(c);
    }
  }

  /** Every file holds octets with the hash it is named by, and every listed object, listed once, has its file. */
  ghost predicate FilesOk(web: Web, k: Known) {
    && NoRepeats(k.objects) && (forall h :: h in k.objects ==> h in k.files)
    && forall h :: h in k.files ==> web.objectId(k.files[h]) == h
  }

  lemma {:induction false} MatchMeans(web: Web, want: string, locs: seq<Value>)
    ensures FirstMatch(web, want, locs).Some? <==> exists i :: 0 <= i < |locs| && Fetched(web, want, locs[i]).Some?
    ensures FirstMatch(web, want, locs).Some? ==> web.objectId(FirstMatch(web, want, locs).value) == want
  {
    if locs != [] {
      MatchMeans(web, want, locs[1..]);
      if i :| 0 < i < |locs| && Fetched(web, want, locs[i]).Some? { assert locs[1..][i - 1] == locs[i]; }
    }
  }

  lemma LearnKeeps(c: Suite, web: Web, k: Known, id: string, raw: string)
    requires FilesOk(web, k)
    ensures FilesOk(web, Learn(c, web, k, id, raw))
  {
    hide Parse, IsPointer, Lookup, FirstMatch;
    if Wanted(c, raw).Some? && Found(c, web, raw).Some? {
      MatchMeans(web, Wanted(c, raw).value, Locs(Field(ParseObject(c.fp, raw).value.members, "ref")));
    }
  }

  /** A text of an id the client did not know, naming this object, with a locator that serves it. */
  ghost predicate Brings(c: Suite, web: Web, k: Known, raw: string, h: string) {
    && ValidateText(c, raw).Valid? && ValidateText(c, raw).id !in k.seen
    && Wanted(c, raw) == Some(h) && Found(c, web, raw).Some?
  }

  lemma BringsNext(c: Suite, web: Web, k: Known, p: Poll, raw: string, h: string)
    requires forall id :: id in p.known.seen <==> id in k.seen || id in p.processed
    ensures var q := Considered(c, web, p, raw);
            h in q.known.objects <==>
            h in p.known.objects || (Brings(c, web, k, raw, h) && ValidateText(c, raw).id !in p.processed)
  {
    hide ValidateText, Wanted, Found;
  }

  lemma {:induction false} ObjectsLearned(c: Suite, web: Web, k: Known, texts: seq<string>, h: string)
    requires NoRepeats(k.seen)
    ensures h in Learned(c, web, k, texts).known.objects <==>
            h in k.objects || exists t :: t in Firsts(c, texts) && Brings(c, web, k, t, h)
    decreases |texts|
  {
    hide ValidateText, Considered, ValidIds, Brings, NoRepeats;
    if texts != [] {
      var m := |texts| - 1;
      ObjectsLearned(c, web, k, texts[..m], h);
      SeenLearned(c, web, k, texts[..m]);
      BringsNext(c, web, k, Learned(c, web, k, texts[..m]), texts[m], h);
      BringsValid(c, web, k, texts[m], h);
      FirstsNext(c, web, k, texts, h);
    }
  }

  lemma BringsValid(c: Suite, web: Web, k: Known, raw: string, h: string)
    ensures Brings(c, web, k, raw, h) ==> ValidateText(c, raw).Valid?
  {
    hide ValidateText, Wanted, Found;
  }

  lemma FirstsNext(c: Suite, web: Web, k: Known, texts: seq<string>, h: string)
    requires texts != []
    ensures var init, raw := texts[..|texts| - 1], texts[|texts| - 1];
            (exists t :: t in Firsts(c, texts) && Brings(c, web, k, t, h)) <==>
            || (exists t :: t in Firsts(c, init) && Brings(c, web, k, t, h))
            || (ValidateText(c, raw).Valid? && ValidateText(c, raw).id !in ValidIds(c, init)
               && Brings(c, web, k, raw, h))
  {
    hide ValidateText, ValidIds, Brings;
    var init, raw := texts[..|texts| - 1], texts[|texts| - 1];
    if ValidateText(c, raw).Valid? && ValidateText(c, raw).id !in ValidIds(c, init) {
      assert Firsts(c, texts) == Firsts(c, init) + [raw];
      assert raw in Firsts(c, texts);
      forall t ensures t in Firsts(c, texts) <==> t in Firsts(c, init) || t == raw { }
    }
  }

  // ---------------------------------------------------------------- the report

  function FreshCount(fs: seq<Finding>): nat {
    if fs == [] then 0 else FreshCount(fs[..|fs| - 1]) + if fs[|fs| - 1].Fresh? then 1 else 0
  }

  function RefusedCount(fs: seq<Finding>): nat {
    if fs == [] then 0 else RefusedCount(fs[..|fs| - 1]) + if fs[|fs| - 1].Refused? then 1 else 0
  }

  lemma CountNext(c: Suite, texts: seq<string>)
    requires texts != []
    ensures var ids, v := ValidIds(c, texts[..|texts| - 1]), ValidateText(c, texts[|texts| - 1]);
            |ValidIds(c, texts)| == |ids| + if v.Valid? && v.id !in ids then 1 else 0
  {
    hide ValidateText, ValidIds;
    ValidIdsNext(c, texts);
    var ids, v := ValidIds(c, texts[..|texts| - 1]), ValidateText(c, texts[|texts| - 1]);
    if v.Valid? && v.id in ids { assert ids + {v.id} == ids; }
  }

  lemma {:induction false} ReportLearned(c: Suite, web: Web, k: Known, texts: seq<string>)
    requires NoRepeats(k.seen)
    ensures var p := Learned(c, web, k, texts);
            && |p.known.seen| == |k.seen| + FreshCount(p.findings)
            && |p.findings| == RefusedCount(p.findings) + |ValidIds(c, texts)|
    decreases |texts|
  {
    hide ValidateText, Considered, ValidIds, NoRepeats;
    if texts != [] {
      var m := |texts| - 1;
      ReportLearned(c, web, k, texts[..m]);
      SeenLearned(c, web, k, texts[..m]);
      ReportNext(c, web, Learned(c, web, k, texts[..m]), texts[m]);
      CountNext(c, texts);
    } else {
      NoItems(c);
    }
  }

  lemma ReportNext(c: Suite, web: Web, p: Poll, raw: string)
    ensures var q, v := Considered(c, web, p, raw), ValidateText(c, raw);
            && |q.known.seen| - FreshCount(q.findings) == |p.known.seen| - FreshCount(p.findings)
            && |q.findings| - RefusedCount(q.findings) ==
               |p.findings| - RefusedCount(p.findings) + if v.Valid? && v.id !in p.processed then 1 else 0
  {
    hide ValidateText, Wanted, Found;
    var q := Considered(c, web, p, raw);
    if |q.findings| > |p.findings| { assert q.findings[..|q.findings| - 1] == p.findings; }
  }

  lemma {:induction false} AgainLearned(c: Suite, web: Web, k: Known, texts: seq<string>)
    requires forall id :: id in ValidIds(c, texts) ==> id in k.seen
    ensures var p := Learned(c, web, k, texts); p.known == k && FreshCount(p.findings) == 0
    decreases |texts|
  {
    hide ValidateText, Learn, Found, ValidIds;
    if texts != [] {
      var m := |texts| - 1;
      ValidIdsNext(c, texts);
      AgainLearned(c, web, k, texts[..m]);
      var p := Learned(c, web, k, texts[..m]);
      var q := Considered(c, web, p, texts[m]);
      if |q.findings| > |p.findings| { assert q.findings[..|q.findings| - 1] == p.findings; }
    }
  }

  // ---------------------------------------------------------------- what a poll leaves behind

  /** After a completed poll the client has seen what it had seen and the ids of all valid items, each once,
      whichever relays served them and in whatever order; after one that died, what it had seen. */
  lemma SeenAfter(c: Suite, web: Web, k: Known, events: seq<Event>)
    requires NoRepeats(k.seen) && AllDump(c, events)
    ensures var after := Saved(k, Polled(c, web, k, events));
            && k.seen <= after.seen && NoRepeats(after.seen)
            && (AllFine(events) ==> forall id :: id in after.seen <==> id in k.seen || id in ValidIds(c, Texts(events)))
            && (!AllFine(events) ==> after.seen == k.seen)
  {
    hide Polled, Learned, AllFine, NoRepeats, Dumps, ValidIds;
    CompletesIff(c, web, k, events);
    if AllFine(events) { SeenLearned(c, web, k, Texts(events)); }
  }

  /** The objects listed after a completed poll are the earlier ones and those that the first valid text of an
      unseen id brings; after one that died, the earlier ones. */
  lemma ObjectsAfter(c: Suite, web: Web, k: Known, events: seq<Event>, h: string)
    requires NoRepeats(k.seen) && AllDump(c, events)
    ensures var after := Saved(k, Polled(c, web, k, events));
            && (AllFine(events) ==>
                (h in after.objects <==>
                 h in k.objects || exists t :: t in Firsts(c, Texts(events)) && Brings(c, web, k, t, h)))
            && (!AllFine(events) ==> after.objects == k.objects)
  {
    hide Polled, Learned, AllFine, NoRepeats, Dumps, Brings, Firsts;
    CompletesIff(c, web, k, events);
    if AllFine(events) { ObjectsLearned(c, web, k, Texts(events), h); }
  }

  /** The poll up to the event it dies at. */
  lemma {:induction false} DeadFiles(c: Suite, web: Web, k: Known, events: seq<Event>)
    requires FilesOk(web, k)
    ensures var course := Polled(c, web, k, events);
            && (course.Going? ==> FilesOk(web, course.p.known))
            && (course.Dead? ==> FilesGood(web, k, course.files))
            && (course.Going? ==> FilesGood(web, k, course.p.known.files))
    decreases |events|
  {
    hide ValidateText, Learn, Found, FilesOk, FilesGood;
    if events != [] {
      var m := |events| - 1;
      DeadFiles(c, web, k, events[..m]);
      var before := Polled(c, web, k, events[..m]);
      if before.Going? && events[m].Item? && events[m].text.Some? {
        var v := ValidateText(c, events[m].text.value);
        if v.Valid? {
          LearnKeeps(c, web, before.p.known, v.id, events[m].text.value);
          LearnGood(c, web, k, before.p.known, v.id, events[m].text.value);
        }
      }
    } else {
      FilesAtFirst(web, k);
    }
  }

  /** The files named as before, with what was added, each under its own hash. */
  ghost predicate FilesGood(web: Web, k: Known, files: map<string, seq<Byte>>) {
    (forall h :: h in k.files ==> h in files) && forall h :: h in files ==> web.objectId(files[h]) == h
  }

  lemma FilesAtFirst(web: Web, k: Known)
    requires FilesOk(web, k)
    ensures FilesGood(web, k, k.files)
  {
  }

  lemma LearnGood(c: Suite, web: Web, k: Known, now: Known, id: string, raw: string)
    requires FilesGood(web, k, now.files) && FilesOk(web, now)
    ensures FilesGood(web, k, Learn(c, web, now, id, raw).files)
  {
    LearnKeeps(c, web, now, id, raw);
    hide Wanted, Found;
  }

  /** Whatever relays and locators answer, and whether the poll completes or dies, nothing is stored under a hash
      it does not have, and every listed object has its file. */
  lemma FilesStayOk(c: Suite, web: Web, k: Known, events: seq<Event>)
    requires FilesOk(web, k)
    ensures FilesOk(web, Saved(k, Polled(c, web, k, events)))
  {
    hide Polled;
    DeadFiles(c, web, k, events);
  }

  /** The report of a completed poll: the number reported as new is the number of ids learned, and every refused
      item and every distinct valid id is reported once. */
  lemma ReportAdds(c: Suite, web: Web, k: Known, events: seq<Event>)
    requires NoRepeats(k.seen) && AllDump(c, events) && AllFine(events)
    ensures var course := Polled(c, web, k, events);
            && course.Going?
            && |course.p.known.seen| == |k.seen| + FreshCount(course.p.findings)
            && |course.p.findings| == RefusedCount(course.p.findings) + |ValidIds(c, Texts(events))|
  {
    hide Polled, Learned, AllFine, NoRepeats, Dumps, ValidIds;
    CompletesIff(c, web, k, events);
    ReportLearned(c, web, k, Texts(events));
  }

  /** Polling the same items again teaches nothing and changes nothing. */
  lemma PollAgain(c: Suite, web: Web, k: Known, events: seq<Event>)
    requires AllDump(c, events) && AllFine(events)
    requires forall id :: id in ValidIds(c, Texts(events)) ==> id in k.seen
    ensures Saved(k, Polled(c, web, k, events)) == k
  {
    hide Polled, Learned, AllFine, Dumps, ValidIds;
    CompletesIff(c, web, k, events);
    AgainLearned(c, web, k, Texts(events));
  }
}
