/** From the collection to the routing answer: FilterCDC feeding an IndexedFilterSet. */
module EndToEnd {
  import opened Wrappers
  import opened Charset
  import opened Filters
  import opened Registry
  import opened IndexedFilterSets
  import opened Cdc
  import CdcService
  import RoundTrip
  import Parsing

  /** How the consumer applies changes: upsert is Add, delete is Remove, Ready is ignored. */
  function EntryOf(n: Name, doc: Document): FilterEntry
  {
    FilterEntry(n, doc.hint, doc.metadata)
  }

  function OpsFor(c: Change): seq<Op>
  {
    match c
    case Upsert(n, doc) => [Op.Add(EntryOf(n, doc), doc.expr)]
    case Delete(n) => [Op.Remove(n)]
    case Ready => []
  }

  function OpsOf(sent: seq<Change>): seq<Op>
  {
    if sent == [] then [] else OpsOf(sent[..|sent| - 1]) + OpsFor(sent[|sent| - 1])
  }

  function Valid(cs: Charset): string -> bool
  {
    (expr: string) => Parsing.Parse(cs, expr).Some?
  }

  // ----- only documents of the collection are ever sent -----

  ghost predicate BodyOk(b: Body, ok: string -> bool)
  {
    b.Readable? ==> ok(b.doc.expr)
  }

  /** Every expression ever stored passes. */
  ghost predicate ExprsOk(log: seq<Event>, ok: string -> bool)
  {
    forall i :: 0 <= i < |log| ==> EventOk(log[i], ok)
  }

  ghost predicate EventOk(e: Event, ok: string -> bool)
  {
    && (e.Put? ==> BodyOk(e.body, ok))
    && (e.Invalidate? ==> forall n :: n in e.docs ==> BodyOk(e.docs[n], ok))
  }

  ghost predicate SentOk(sent: seq<Change>, ok: string -> bool)
  {
    forall c :: c in sent && c.Upsert? ==> ok(c.doc.expr)
  }

  ghost predicate DocsOk(phase: Phase, ok: string -> bool)
  {
    phase.Sending? ==> forall n :: n in phase.docs ==> ok(phase.docs[n].expr)
  }

  lemma {:induction false} StoredOk(log: seq<Event>, k: nat, n: Name, ok: string -> bool)
    requires ExprsOk(log, ok) && k <= |log|
    ensures BodyAt(log, k, n).Some? ==> BodyOk(BodyAt(log, k, n).value, ok)
  {
    if k > 0 {
      assert EventOk(log[k - 1], ok);
      StoredOk(log, k - 1, n, ok);
    }
  }

  lemma StepSendsOk(s: State, step: Step, s': State, ok: string -> bool)
    requires Next(s, step, s') && ExprsOk(s.log, ok) && SentOk(s.sent, ok) && DocsOk(s.phase, ok)
    ensures SentOk(s'.sent, ok) && DocsOk(s'.phase, ok)
  {
    match step
    case List(docs) =>
      forall n | n in docs ensures ok(docs[n].expr) {
        assert NameRead(s.log, s.phase.pin, n, Get(docs, n));
        var k :| s.phase.pin <= k <= |s.log| && ListedAt(s.log, k, n, Get(docs, n));
        StoredOk(s.log, k, n, ok);
      }
    case Handle(seenAt, _) =>
      var e := s.log[s.phase.at];
      assert EventOk(e, ok);
      StoredOk(s.log, seenAt, e.name, ok);
    case _ =>
  }

  lemma {:induction false} RunSendsOk(run: seq<State>, steps: seq<Step>, i: nat, ok: string -> bool)
    requires IsRun(run, steps) && i < |run| && ExprsOk(run[i].log, ok)
    ensures SentOk(run[i].sent, ok) && DocsOk(run[i].phase, ok)
  {
    if i > 0 {
      assert Next(run[i - 1], steps[i - 1], run[i]);
      LogGrows(run[i - 1], steps[i - 1], run[i]);
      assert forall j :: 0 <= j < |run[i - 1].log| ==> run[i - 1].log[j] == run[i].log[j];
      RunSendsOk(run, steps, i - 1, ok);
      StepSendsOk(run[i - 1], steps[i - 1], run[i], ok);
    }
  }

  lemma LogGrows(s: State, step: Step, s': State)
    requires Next(s, step, s')
    ensures s.log <= s'.log
  {
  }

  /** If every stored expression parses, so does every expression sent. */
  lemma SentExpressionsParse(cs: Charset, s: State)
    requires Reachable(s) && ExprsOk(s.log, Valid(cs))
    ensures SentOk(s.sent, Valid(cs))
  {
    var run, steps :| IsRun(run, steps) && run[|run| - 1] == s;
    RunSendsOk(run, steps, |run| - 1, Valid(cs));
  }

  // ----- the consumer's set is what it was told -----

  /** The compiled filter of a document. */
  ghost predicate Compiled(cs: Charset, n: Name, doc: Document, f: Filter)
  {
    f.entry.name == n && f.entry.hint == doc.hint && f.entry.metadata == doc.metadata &&
    Parsing.Parse(cs, doc.expr) == Some(f.pred)
  }

  /** The version of a name that the consumer holds: the last one that parsed, since it was last deleted. */
  function Kept(cs: Charset, sent: seq<Change>, n: Name): Option<Document>
  {
    if sent == [] then None
    else
      var c, before := sent[|sent| - 1], Kept(cs, sent[..|sent| - 1], n);
      if c.Upsert? && c.name == n && Valid(cs)(c.doc.expr) then Some(c.doc)
      else if c.Delete? && c.name == n then None
      else before
  }

  lemma ReplaySnoc(cs: Charset, ops: seq<Op>, op: Op)
    ensures ReplayMap(cs, ops + [op]) == ApplyToMap(cs, ReplayMap(cs, ops), op)
    ensures Replay(cs, ops + [op]) == Apply(cs, Replay(cs, ops), op)
  {
    assert (ops + [op])[..|ops|] == ops;
  }

  lemma KeptSnoc(cs: Charset, init: seq<Change>, c: Change, n: Name)
    ensures Kept(cs, init + [c], n) ==
            if c.Upsert? && c.name == n && Valid(cs)(c.doc.expr) then Some(c.doc)
            else if c.Delete? && c.name == n then None else Kept(cs, init, n)
    ensures OpsOf(init + [c]) == OpsOf(init) + OpsFor(c) && Told(init + [c]) == Applied(Told(init), c)
  {
    assert (init + [c])[..|init|] == init;
  }

  lemma AddAt(cs: Charset, m: map<string, Filter>, k: Name, doc: Document, n: Name)
    ensures Get(ApplyToMap(cs, m, Op.Add(EntryOf(k, doc), doc.expr)), n) ==
            if k == n && Valid(cs)(doc.expr) then Some(Filter(EntryOf(n, doc), Parsing.Parse(cs, doc.expr).value))
            else Get(m, n)
  {
  }

  lemma RemoveAt(cs: Charset, m: map<string, Filter>, k: Name, n: Name)
    ensures Get(ApplyToMap(cs, m, Op.Remove(k)), n) == if k == n then None else Get(m, n)
  {
  }

  /** What the consumer's set holds of a name after one more change. */
  ghost function HeldAfter(cs: Charset, held: Option<Filter>, c: Change, n: Name): Option<Filter>
  {
    if c.Upsert? && c.name == n && Valid(cs)(c.doc.expr) then
      Some(Filter(EntryOf(n, c.doc), Parsing.Parse(cs, c.doc.expr).value))
    else if c.Delete? && c.name == n then None
    else held
  }

  lemma {:induction false} ConsumerStep(cs: Charset, init: seq<Change>, c: Change, n: Name)
    ensures Get(ReplayMap(cs, OpsOf(init + [c])), n) == HeldAfter(cs, Get(ReplayMap(cs, OpsOf(init)), n), c, n)
  {
    var m := ReplayMap(cs, OpsOf(init));
    KeptSnoc(cs, init, c, n);
    match c
    case Upsert(k, doc) =>
      ReplaySnoc(cs, OpsOf(init), Op.Add(EntryOf(k, doc), doc.expr));
      AddAt(cs, m, k, doc, n);
    case Delete(k) =>
      ReplaySnoc(cs, OpsOf(init), Op.Remove(k));
      RemoveAt(cs, m, k, n);
    case Ready =>
      assert OpsOf(init) + [] == OpsOf(init);
  }

  /** The filter held is the compiled form of the version kept. */
  ghost predicate HeldIs(cs: Charset, n: Name, held: Option<Filter>, kept: Option<Document>)
  {
    (held.Some? <==> kept.Some?) && (kept.Some? ==> Compiled(cs, n, kept.value, held.value))
  }

  lemma {:induction false} HeldStep(cs: Charset, init: seq<Change>, c: Change, n: Name)
    requires HeldIs(cs, n, Get(ReplayMap(cs, OpsOf(init)), n), Kept(cs, init, n))
    ensures HeldIs(cs, n, Get(ReplayMap(cs, OpsOf(init + [c])), n), Kept(cs, init + [c], n))
  {
    KeptSnoc(cs, init, c, n);
    ConsumerStep(cs, init, c, n);
  }

  /** The consumer's set holds the compiled form of the version kept, and nothing where none is. */
  lemma {:induction false} ConsumerKeeps(cs: Charset, sent: seq<Change>, n: Name)
    ensures HeldIs(cs, n, Get(ReplayMap(cs, OpsOf(sent)), n), Kept(cs, sent, n))
  {
    if sent != [] {
      var init, c := sent[..|sent| - 1], sent[|sent| - 1];
      ConsumerKeeps(cs, init, n);
      HeldStep(cs, init, c, n);
      assert sent == init + [c];
    }
  }

  /** Nothing is kept of a name that was not told, and of a name whose current version parses, that version. */
  lemma {:induction false} KeptIsTold(cs: Charset, sent: seq<Change>, n: Name)
    ensures Kept(cs, sent, n).Some? ==> n in Told(sent)
    ensures n in Told(sent) && Valid(cs)(Told(sent)[n].expr) ==> Kept(cs, sent, n) == Some(Told(sent)[n])
  {
    if sent != [] { KeptIsTold(cs, sent[..|sent| - 1], n); }
  }

  // ----- end to end -----

  /** How often an entry must be in the answer to an event if its name stands for the given document. */
  ghost function Counted(cs: Charset, doc: Option<Document>, a: Attrs, e: FilterEntry): nat
  {
    if doc.Some? && e.hint == doc.value.hint && e.metadata == doc.value.metadata && Fires(cs, doc.value, a) then 1
    else 0
  }

  predicate Fires(cs: Charset, doc: Document, a: Attrs)
  {
    var p := Parsing.Parse(cs, doc.expr);
    p.Some? && Match(p.value, a)
  }

  /** Once for an active document that matches. */
  ghost function Expected(cs: Charset, log: seq<Event>, a: Attrs, e: FilterEntry): nat
  {
    Counted(cs, ActiveNow(log, e.name), a, e)
  }

  /** The consumer answers with the versions it keeps. */
  lemma {:induction false} ConsumerAnswers(cs: Charset, sent: seq<Change>, a: Attrs, e: FilterEntry)
    ensures multiset(Hits(Replay(cs, OpsOf(sent)), On(a)))[e] == Counted(cs, Kept(cs, sent, e.name), a, e)
  {
    var ops := OpsOf(sent);
    var fs, m := Replay(cs, ops), ReplayMap(cs, ops);
    ConsumerKeeps(cs, sent, e.name);
    ReplayHolds(cs, ops);
    HitsMembers(fs, On(a));
    HitsDistinct(fs, On(a));
    DistinctCount(Hits(fs, On(a)), e);
    if e.name in m { assert m[e.name] in fs; }
  }

  /** The consumer keeps a version of n that can match, although no active document of n parses. */
  ghost predicate Outdated(cs: Charset, s: State, n: Name)
  {
    var kept, doc := Kept(cs, s.sent, n), ActiveNow(s.log, n);
    kept.Some? && !(doc.Some? && Valid(cs)(doc.value.expr)) && exists a :: Fires(cs, kept.value, a)
  }

  ghost predicate Answers(cs: Charset, s: State, a: Attrs, e: FilterEntry)
  {
    multiset(Hits(Replay(cs, OpsOf(s.sent)), On(a)))[e] == Expected(cs, s.log, a, e)
  }

  /** Caught up, a consumer that applied every change answers with the matching active documents, each once. */
  lemma EndToEndHits(cs: Charset, s: State, a: Attrs, e: FilterEntry)
    requires Reachable(s) && CaughtUp(s) && !Outdated(cs, s, e.name)
    ensures Answers(cs, s, a, e)
  {
    ConsumerAnswers(cs, s.sent, a, e);
    KeptIsTold(cs, s.sent, e.name);
    CaughtUpName(s, e.name);
    var kept, doc := Kept(cs, s.sent, e.name), ActiveNow(s.log, e.name);
    if kept.Some? && !(doc.Some? && Valid(cs)(doc.value.expr)) { assert !Fires(cs, kept.value, a); }
  }

  /** All its answers are right if and only if it keeps no outdated version that can match. */
  lemma EndToEndIff(cs: Charset, s: State)
    requires Reachable(s) && CaughtUp(s)
    ensures (forall a, e :: Answers(cs, s, a, e)) <==> forall n :: !Outdated(cs, s, n)
  {
    if forall n :: !Outdated(cs, s, n) {
      forall a, e ensures Answers(cs, s, a, e) { EndToEndHits(cs, s, a, e); }
    }
    forall n | Outdated(cs, s, n) ensures exists a, e :: !Answers(cs, s, a, e) {
      var kept := Kept(cs, s.sent, n).value;
      var a :| Fires(cs, kept, a);
      ConsumerAnswers(cs, s.sent, a, EntryOf(n, kept));
      assert !Answers(cs, s, a, EntryOf(n, kept));
    }
  }

  /** A document with the given expression and nothing else. */
  function Plain(expr: string): Document
  {
    Document("", map[], expr, false)
  }

  lemma ExistsAParses(cs: Charset)
    ensures Parsing.Parse(cs, "EXISTS A") == Some(Exists("A"))
  {
    RoundTrip.PrintParse(cs, Exists("A"));
    assert Print(cs, Exists("A")) == "EXISTS " + "A" == "EXISTS A";
  }

  lemma NothingDoesNotParse(cs: Charset)
    ensures Parsing.Parse(cs, "").None?
  {
  }

  /** The concrete failure: after a good expression an unusable one is stored, and the good one keeps matching. */
  lemma OutdatedIsReached(cs: Charset) returns (s: State)
    ensures Reachable(s) && CaughtUp(s) && AllLegible(s.log) && Exact(s) && Outdated(cs, s, "a")
  {
    s := Cdc.TailingWith("a", Plain("EXISTS A"));
    var good := s;
    s := Cdc.Sees(good, Put("a", Readable(Plain("")), false));
    Converges(s);
    ExistsAParses(cs);
    NothingDoesNotParse(cs);
    KeptIsTold(cs, good.sent, "a");
    KeptSnoc(cs, good.sent, Upsert("a", Plain("")), "a");
    assert Fires(cs, Plain("EXISTS A"), map["A" := ""]);
  }

  /** Nothing is outdated when all stored expressions parse and every live name was last written legibly. */
  lemma NothingOutdated(cs: Charset, s: State, n: Name)
    requires Reachable(s) && CaughtUp(s) && ExprsOk(s.log, Valid(cs))
    requires n in s.live ==> Legible(s.log, |s.log|, n)
    ensures !Outdated(cs, s, n)
  {
    LiveIsWhatWasTold(s);
    KeptIsTold(cs, s.sent, n);
    CaughtUpName(s, n);
    StoredOk(s.log, |s.log|, n, Valid(cs));
  }

  /** The consumer loop of DEV_NOTES.md: applies the changes in order, after those it has applied before. */
  method Consume(gate: IndexedFilterSet, ghost done: seq<Change>, changes: seq<Change>)
    requires gate.Valid() && gate.order == Replay(gate.cs, OpsOf(done))
    modifies gate, gate.repr
    ensures gate.Valid() && gate.order == Replay(gate.cs, OpsOf(done + changes)) && fresh(gate.repr - old(gate.repr))
    ensures gate.maxMatches == old(gate.maxMatches) && gate.callback == old(gate.callback)
  {
    SeenAll(done, changes);
    for i := 0 to |changes|
      invariant gate.Valid() && gate.order == Replay(gate.cs, OpsOf(Seen(done, changes, i)))
      invariant fresh(gate.repr - old(gate.repr))
      invariant gate.maxMatches == old(gate.maxMatches) && gate.callback == old(gate.callback)
    {
      SeenOne(done, changes, i);
      ApplyChange(gate, changes[i], Seen(done, changes, i));
    }
  }

  /** All that a consumer has applied after i more changes. */
  ghost function Seen(done: seq<Change>, changes: seq<Change>, i: nat): seq<Change>
    requires i <= |changes|
  {
    done + changes[..i]
  }

  lemma SeenAll(done: seq<Change>, changes: seq<Change>)
    ensures Seen(done, changes, 0) == done && Seen(done, changes, |changes|) == done + changes
  {
    assert changes[..|changes|] == changes;
  }

  lemma SeenOne(done: seq<Change>, changes: seq<Change>, i: nat)
    requires i < |changes|
    ensures Seen(done, changes, i) + [changes[i]] == Seen(done, changes, i + 1)
  {
  }

  lemma OpsOfSnoc(sent: seq<Change>, c: Change)
    ensures OpsOf(sent + [c]) == OpsOf(sent) + OpsFor(c)
  {
    assert (sent + [c])[..|sent|] == sent;
  }

  method ApplyChange(gate: IndexedFilterSet, c: Change, ghost done: seq<Change>)
    requires gate.Valid() && gate.order == Replay(gate.cs, OpsOf(done))
    modifies gate, gate.repr
    ensures gate.Valid() && gate.order == Replay(gate.cs, OpsOf(done + [c])) && fresh(gate.repr - old(gate.repr))
    ensures gate.maxMatches == old(gate.maxMatches) && gate.callback == old(gate.callback)
  {
    ghost var ops := OpsOf(done);
    OpsOfSnoc(done, c);
    match c
    case Upsert(n, doc) =>
      ReplaySnoc(gate.cs, ops, Op.Add(EntryOf(n, doc), doc.expr));
      var _ := gate.Add(EntryOf(n, doc), doc.expr);
    case Delete(n) =>
      ReplaySnoc(gate.cs, ops, Op.Remove(n));
      gate.Remove(n);
    case Ready =>
      assert ops + [] == ops;
  }

  /** Routing one event: with nothing outdated, the matching active documents and nothing else, up to the cap. */
  method Route(gate: IndexedFilterSet, ghost s: State, a: Attrs) returns (matched: seq<FilterEntry>)
    requires gate.Valid() && gate.order == Replay(gate.cs, OpsOf(s.sent)) && Reachable(s)
    ensures CaughtUp(s) && (forall n :: !Outdated(gate.cs, s, n)) ==>
            RoutesTo(gate.cs, s.log, a, gate.maxMatches, matched)
  {
    var calls;
    matched, calls := gate.Match(a);
    if CaughtUp(s) && forall n :: !Outdated(gate.cs, s, n) {
      forall e ensures multiset(Hits(gate.order, On(a)))[e] == Expected(gate.cs, s.log, a, e) {
        EndToEndHits(gate.cs, s, a, e);
        assert Answers(gate.cs, s, a, e);
      }
      PartOf(multiset(matched), multiset(Hits(gate.order, On(a))));
      CountsRouteTo(gate.cs, s.log, a, gate.maxMatches, matched);
    }
  }

  lemma PartOf(m: multiset<FilterEntry>, all: multiset<FilterEntry>)
    requires m <= all
    ensures forall e :: m[e] <= all[e]
  {
  }

  /** The active document of n matches the event. */
  ghost predicate IsMatching(cs: Charset, log: seq<Event>, a: Attrs, n: Name)
  {
    ActiveNow(log, n).Some? && Fires(cs, ActiveNow(log, n).value, a)
  }

  /** The entry is that of a matching document: its name, its hint and its metadata. */
  ghost predicate IsEntryOfMatching(cs: Charset, log: seq<Event>, a: Attrs, e: FilterEntry)
  {
    && IsMatching(cs, log, a, e.name)
    && e.hint == ActiveNow(log, e.name).value.hint && e.metadata == ActiveNow(log, e.name).value.metadata
  }

  /**
   The answer lists entries of active matching documents only, each name once, and
   every such document unless the cap is reached.
   */
  ghost predicate RoutesTo(cs: Charset, log: seq<Event>, a: Attrs, max: int, matched: seq<FilterEntry>)
  {
    && (forall e :: e in matched ==> IsEntryOfMatching(cs, log, a, e))
    && (forall i, j :: 0 <= i < j < |matched| ==> matched[i].name != matched[j].name)
    && (max > 0 ==> |matched| <= max)
    && (max <= 0 || |matched| < max ==>
          forall n :: IsMatching(cs, log, a, n) ==> exists e :: e in matched && e.name == n)
  }

  /** The counts of the entries say the same. */
  lemma CountsRouteTo(cs: Charset, log: seq<Event>, a: Attrs, max: int, matched: seq<FilterEntry>)
    requires forall e :: multiset(matched)[e] <= Expected(cs, log, a, e)
    requires max > 0 ==> |matched| <= max
    requires max <= 0 || |matched| < max ==> forall e :: multiset(matched)[e] == Expected(cs, log, a, e)
    ensures RoutesTo(cs, log, a, max, matched)
  {
    forall e | e in matched ensures IsEntryOfMatching(cs, log, a, e) {
      assert multiset(matched)[e] > 0;
      assert Expected(cs, log, a, e) == 1;
    }
    forall i, j | 0 <= i < j < |matched| ensures matched[i].name != matched[j].name {
      assert matched[i] in matched && matched[j] in matched;
      if matched[i] == matched[j] { RepeatIsCounted(matched, i, j); }
    }
    if max <= 0 || |matched| < max {
      forall n | IsMatching(cs, log, a, n) ensures exists e :: e in matched && e.name == n {
        var doc := ActiveNow(log, n).value;
        var e := FilterEntry(n, doc.hint, doc.metadata);
        assert multiset(matched)[e] == Expected(cs, log, a, e) == 1;
        assert e in multiset(matched);
      }
    }
  }

  /**
   The endpoints are non-empty hints of active matching documents, each once, and
   all of those hints unless the cap is reached.
   */
  ghost predicate EndpointsRouteTo(cs: Charset, log: seq<Event>, a: Attrs, max: int, endpoints: seq<string>)
  {
    && (forall h :: h in endpoints ==> IsEndpoint(cs, log, a, h))
    && (forall i, j :: 0 <= i < j < |endpoints| ==> endpoints[i] != endpoints[j])
    && (max > 0 ==> |endpoints| <= max)
    && (max <= 0 || |endpoints| < max ==> forall h :: IsEndpoint(cs, log, a, h) ==> h in endpoints)
  }

  /** A non-empty hint of an active matching document. */
  ghost predicate IsEndpoint(cs: Charset, log: seq<Event>, a: Attrs, h: string)
  {
    h != "" && exists n :: IsMatching(cs, log, a, n) && ActiveNow(log, n).value.hint == h
  }

  /** Caught up, a consumer that applied every change collects the hints of the matching active documents. */
  lemma EndToEndHints(cs: Charset, s: State, a: Attrs, h: string)
    requires Reachable(s) && CaughtUp(s) && forall n :: !Outdated(cs, s, n)
    ensures h in HintSet(Replay(cs, OpsOf(s.sent)), On(a)) <==> IsEndpoint(cs, s.log, a, h)
  {
    var fs := Replay(cs, OpsOf(s.sent));
    HintSetMembers(fs, On(a), h);
    HitsMembers(fs, On(a));
    forall e ensures e in Hits(fs, On(a)) <==> Expected(cs, s.log, a, e) == 1 {
      EndToEndHits(cs, s, a, e);
      assert Answers(cs, s, a, e);
    }
    if f :| f in fs && f.entry.hint == h && On(a)(f) {
      assert f.entry in Hits(fs, On(a));
      assert Expected(cs, s.log, a, f.entry) == 1;
    }
    if n :| IsMatching(cs, s.log, a, n) && ActiveNow(s.log, n).value.hint == h {
      var doc := ActiveNow(s.log, n).value;
      var e := FilterEntry(n, doc.hint, doc.metadata);
      assert Expected(cs, s.log, a, e) == 1;
      assert e in Hits(fs, On(a));
    }
  }

  /** Collecting endpoints for one event: with nothing outdated, the hints of the matching active documents. */
  method RouteEndpoints(gate: IndexedFilterSet, ghost s: State, a: Attrs) returns (endpoints: seq<string>)
    requires gate.Valid() && gate.order == Replay(gate.cs, OpsOf(s.sent)) && Reachable(s)
    ensures CaughtUp(s) && (forall n :: !Outdated(gate.cs, s, n)) ==>
            EndpointsRouteTo(gate.cs, s.log, a, gate.maxMatches, endpoints)
  {
    var calls;
    endpoints, calls := gate.MatchEndpoints(a);
    if CaughtUp(s) && forall n :: !Outdated(gate.cs, s, n) {
      forall h ensures h in HintSet(gate.order, On(a)) <==> IsEndpoint(gate.cs, s.log, a, h) {
        EndToEndHints(gate.cs, s, a, h);
      }
      HintsRouteTo(gate.cs, s.log, a, gate.order, gate.maxMatches, endpoints);
    }
  }

  lemma HintsRouteTo(cs: Charset, log: seq<Event>, a: Attrs, fs: seq<Filter>, max: int, endpoints: seq<string>)
    requires EndpointsOf(fs, On(a), max, endpoints)
    requires forall h :: h in HintSet(fs, On(a)) <==> IsEndpoint(cs, log, a, h)
    ensures EndpointsRouteTo(cs, log, a, max, endpoints)
  {
    EndpointsAre(fs, On(a), max, endpoints);
  }

  /** FilterCDC is at rest, and the gate holds what it has sent so far. */
  ghost predicate InStep(cdc: CdcService.FilterCDC, gate: IndexedFilterSet)
    reads cdc, cdc.world, gate, gate.repr
  {
    && cdc.Valid() && !cdc.running && cdc.s.phase == Idle
    && gate.Valid() && gate.order == Replay(gate.cs, OpsOf(cdc.world.inbox))
    && cdc !in gate.repr && cdc.world !in gate.repr
  }

  /** With nothing outdated, a caught-up consumer answers about the collection as it is. */
  ghost predicate AnswersRight(cs: Charset, s: State, a: Attrs, max: int, matched: seq<FilterEntry>)
  {
    CaughtUp(s) && (forall n :: !Outdated(cs, s, n)) ==> RoutesTo(cs, s.log, a, max, matched)
  }

  /** A run of FilterCDC, the first or a reconnect, and the consumer of its changes. */
  method Update(cdc: CdcService.FilterCDC, gate: IndexedFilterSet, turns: nat) returns (outcome: CdcService.Outcome)
    requires InStep(cdc, gate)
    modifies cdc, cdc.world, gate, gate.repr
    ensures InStep(cdc, gate) && fresh(gate.repr - old(gate.repr)) && gate.maxMatches == old(gate.maxMatches)
    ensures old(cdc.world.log) <= cdc.world.log && old(cdc.world.inbox) <= cdc.world.inbox
  {
    ghost var done := cdc.world.inbox;
    var n := |cdc.world.inbox|;
    outcome := cdc.Run(turns);
    assert done + cdc.world.inbox[n..] == cdc.world.inbox;
    Consume(gate, done, cdc.world.inbox[n..]);
  }

  /** And one routed event. */
  method Serve(cdc: CdcService.FilterCDC, gate: IndexedFilterSet, turns: nat, a: Attrs)
    returns (outcome: CdcService.Outcome, matched: seq<FilterEntry>, ghost s: State)
    requires InStep(cdc, gate)
    modifies cdc, cdc.world, gate, gate.repr
    ensures InStep(cdc, gate) && fresh(gate.repr - old(gate.repr))
    ensures old(cdc.world.log) <= cdc.world.log && old(cdc.world.inbox) <= cdc.world.inbox
    ensures gate.maxMatches == old(gate.maxMatches)
    ensures s == cdc.s.(log := cdc.world.log) && s.sent == cdc.world.inbox && Reachable(s)
    ensures AnswersRight(gate.cs, s, a, gate.maxMatches, matched)
  {
    outcome := Update(cdc, gate, turns);
    s := cdc.s.(log := cdc.world.log);
    ReachableWrites(cdc.s, cdc.world.log);
    matched := Route(gate, s, a);
  }

  /** An event to route, after a run of at most so many turns. */
  datatype Request = Request(turns: nat, attrs: Attrs)

  /** One answer and the state it was given in, seen from a later log and inbox. */
  ghost predicate Served(cs: Charset, log: seq<Event>, inbox: seq<Change>, s: State, a: Attrs, max: int,
                         matched: seq<FilterEntry>)
  {
    Reachable(s) && s.log <= log && s.sent <= inbox && AnswersRight(cs, s, a, max, matched)
  }

  /** Every request so far has its answer. */
  ghost predicate AllServed(cs: Charset, log: seq<Event>, inbox: seq<Change>, max: int, requests: seq<Request>,
                            states: seq<State>, answers: seq<seq<FilterEntry>>)
  {
    && |answers| == |states| <= |requests|
    && forall i :: 0 <= i < |states| ==> Served(cs, log, inbox, states[i], requests[i].attrs, max, answers[i])
  }

  lemma ServedOneMore(cs: Charset, log: seq<Event>, inbox: seq<Change>, max: int, requests: seq<Request>,
                      states: seq<State>, answers: seq<seq<FilterEntry>>, s: State, matched: seq<FilterEntry>)
    requires AllServed(cs, log, inbox, max, requests, states, answers) && |states| < |requests|
    requires log <= s.log && inbox <= s.sent && Reachable(s)
    requires AnswersRight(cs, s, requests[|states|].attrs, max, matched)
    ensures AllServed(cs, s.log, s.sent, max, requests, states + [s], answers + [matched])
  {
    forall i | 0 <= i < |states| ensures Served(cs, s.log, s.sent, states[i], requests[i].attrs, max, answers[i]) {
      assert Served(cs, log, inbox, states[i], requests[i].attrs, max, answers[i]);
    }
  }

  method NewGate(cs: Charset, max: int) returns (gate: IndexedFilterSet)
    ensures gate.Valid() && gate.cs == cs && gate.maxMatches == max && gate.order == []
    ensures fresh(gate) && fresh(gate.repr)
  {
    gate := new IndexedFilterSet(cs);
    gate.maxMatches := max;
  }

  lemma NothingSeen(cs: Charset)
    ensures Replay(cs, OpsOf([])) == []
  {
  }

  /** One FilterCDC and one index, for the set's whole lifetime. */
  method Connect(cs: Charset, world: CdcService.World, max: int)
    returns (cdc: CdcService.FilterCDC, gate: IndexedFilterSet)
    requires world.inbox == []
    ensures InStep(cdc, gate) && cdc.world == world && gate.cs == cs && gate.maxMatches == max
    ensures fresh(cdc) && fresh(gate) && fresh(gate.repr)
  {
    cdc := new CdcService.FilterCDC(world);
    gate := NewGate(cs, max);
    NothingSeen(cs);
  }

  /** The next request is served, after a reconnect. */
  method ServeNext(cdc: CdcService.FilterCDC, gate: IndexedFilterSet, requests: seq<Request>,
                   ghost states: seq<State>, answers: seq<seq<FilterEntry>>)
    returns (answers': seq<seq<FilterEntry>>, ghost states': seq<State>)
    requires InStep(cdc, gate) && |answers| < |requests|
    requires AllServed(gate.cs, cdc.world.log, cdc.world.inbox, gate.maxMatches, requests, states, answers)
    modifies cdc, cdc.world, gate, gate.repr
    ensures InStep(cdc, gate) && fresh(gate.repr - old(gate.repr)) && gate.maxMatches == old(gate.maxMatches)
    ensures |answers'| == |answers| + 1
    ensures AllServed(gate.cs, cdc.world.log, cdc.world.inbox, gate.maxMatches, requests, states', answers')
  {
    ghost var log, inbox := cdc.world.log, cdc.world.inbox;
    var request := requests[|answers|];
    var _, matched, s := Serve(cdc, gate, request.turns, request.attrs);
    ServedOneMore(gate.cs, log, inbox, gate.maxMatches, requests, states, answers, s, matched);
    answers', states' := answers + [matched], states + [s];
  }

  /** The requests one after another, each after a reconnect. */
  method ServeRest(cdc: CdcService.FilterCDC, gate: IndexedFilterSet, requests: seq<Request>)
    returns (answers: seq<seq<FilterEntry>>, ghost states: seq<State>)
    requires InStep(cdc, gate)
    modifies cdc, cdc.world, gate, gate.repr
    ensures InStep(cdc, gate) && fresh(gate.repr - old(gate.repr)) && |answers| == |requests|
    ensures AllServed(gate.cs, cdc.world.log, cdc.world.inbox, old(gate.maxMatches), requests, states, answers)
  {
    answers, states := [], [];
    while |answers| < |requests|
      invariant InStep(cdc, gate) && fresh(gate.repr - old(gate.repr)) && gate.maxMatches == old(gate.maxMatches)
      invariant |answers| <= |requests|
      invariant AllServed(gate.cs, cdc.world.log, cdc.world.inbox, gate.maxMatches, requests, states, answers)
    {
      answers, states := ServeNext(cdc, gate, requests, states, answers);
    }
  }

  /** A consumer through its first run and any number of reconnects: every answer is right about its moment. */
  method ServeAll(cs: Charset, world: CdcService.World, max: int, requests: seq<Request>)
    returns (answers: seq<seq<FilterEntry>>, ghost states: seq<State>)
    requires world.inbox == []
    modifies world
    ensures |answers| == |requests| && AllServed(cs, world.log, world.inbox, max, requests, states, answers)
  {
    var cdc, gate := Connect(cs, world, max);
    answers, states := ServeRest(cdc, gate, requests);
  }
}
