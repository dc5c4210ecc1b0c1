/** How Match and MatchEndpoints of cloudevent/cefilter/index.go collect answers from offered filters. */
module Collecting {
  import opened Registry

  /** The variables captured by the add closure of Match. */
  datatype MatchRun = MatchRun(seen: set<string>, matched: seq<FilterEntry>, done: bool, calls: seq<nat>)

  const MATCH_START := MatchRun({}, [], false, [])

  type Adder<!S> = (S, Filter) -> S

  /** The add closure of Match. */
  function MatchAdd(fires: Test, max: int, callback: bool): Adder<MatchRun>
  {
    (st: MatchRun, f: Filter) =>
      if st.done || f.entry.name in st.seen then st
      else
        var seen := st.seen + {f.entry.name};
        if !fires(f) then st.(seen := seen)
        else
          var matched := st.matched + [f.entry];
          var full := max > 0 && |matched| >= max;
          MatchRun(seen, matched, full, if full && callback then st.calls + [|matched|] else st.calls)
  }

  /** The variables captured by the add closure of MatchEndpoints. */
  datatype EndpointRun =
    EndpointRun(seenNames: set<string>, seenHints: set<string>, endpoints: seq<string>, done: bool, calls: seq<nat>)

  const ENDPOINT_START := EndpointRun({}, {}, [], false, [])

  /** The add closure of MatchEndpoints. */
  function EndpointAdd(fires: Test, max: int, callback: bool): Adder<EndpointRun>
  {
    (st: EndpointRun, f: Filter) =>
      if st.done || f.entry.name in st.seenNames then st
      else
        var hint, named := f.entry.hint, st.(seenNames := st.seenNames + {f.entry.name});
        if hint == "" || hint in st.seenHints || !fires(f) then named
        else
          var endpoints := st.endpoints + [hint];
          var full := max > 0 && |endpoints| >= max;
          EndpointRun(named.seenNames, st.seenHints + {hint}, endpoints, full,
                      if full && callback then st.calls + [|endpoints|] else st.calls)
  }

  /** Offering every filter of a list in turn. */
  function OfferAll<S>(add: Adder<S>, st: S, fs: seq<Filter>): S
  {
    if fs == [] then st else add(OfferAll(add, st, fs[..|fs| - 1]), fs[|fs| - 1])
  }

  /** Once done, add changes nothing. */
  ghost predicate Stops<S(!new)>(add: Adder<S>, done: S -> bool)
  {
    forall st, f :: done(st) ==> add(st, f) == st
  }

  lemma {:induction false} OfferAllDone<S(!new)>(add: Adder<S>, done: S -> bool, st: S, fs: seq<Filter>)
    requires Stops(add, done) && done(st)
    ensures OfferAll(add, st, fs) == st
  {
    if fs != [] { OfferAllDone(add, done, st, fs[..|fs| - 1]); }
  }

  lemma {:induction false} OfferAllConcat<S>(add: Adder<S>, st: S, fs: seq<Filter>, gs: seq<Filter>)
    ensures OfferAll(add, st, fs + gs) == OfferAll(add, OfferAll(add, st, fs), gs)
  {
    if gs == [] {
      assert fs + gs == fs;
    } else {
      OfferAllConcat(add, st, fs, gs[..|gs| - 1]);
      assert (fs + gs)[..|fs + gs| - 1] == fs + gs[..|gs| - 1];
    }
  }

  /** One of the loops: stops as soon as the run is done. */
  method OfferEach<S(!new)>(add: Adder<S>, done: S -> bool, st: S, entries: seq<Filter>) returns (r: S)
    requires Stops(add, done)
    ensures r == OfferAll(add, st, entries)
  {
    r := st;
    for i := 0 to |entries|
      invariant r == OfferAll(add, st, entries[..i])
    {
      assert entries == entries[..i] + entries[i..];
      if done(r) {
        OfferAllConcat(add, st, entries[..i], entries[i..]);
        OfferAllDone(add, done, r, entries[i..]);
        return;
      }
      assert entries[..i + 1][..i] == entries[..i];
      r := add(r, entries[i]);
    }
    assert entries[..|entries|] == entries;
  }

  // ----- what a run of Match collects -----

  /** The entries of firing filters, each name once, in the order first offered. */
  ghost function Firsts(fs: seq<Filter>, fires: Test): seq<FilterEntry>
  {
    if fs == [] then []
    else
      var init, last := fs[..|fs| - 1], fs[|fs| - 1];
      Firsts(init, fires) + (if fires(last) && last.entry.name !in NamesOf(init) then [last.entry] else [])
  }

  lemma NamesOfSnoc(fs: seq<Filter>)
    requires fs != []
    ensures NamesOf(fs) == NamesOf(fs[..|fs| - 1]) + {fs[|fs| - 1].entry.name}
  {
  }

  ghost predicate MatchRunIs(st: MatchRun, fs: seq<Filter>, fires: Test, max: int, callback: bool)
  {
    if st.done then
      0 < max == |st.matched| && st.matched <= Firsts(fs, fires) && st.calls == (if callback then [max as nat] else [])
    else
      && st.seen == NamesOf(fs) && st.matched == Firsts(fs, fires) && st.calls == []
      && (max > 0 ==> |st.matched| < max)
  }

  lemma {:induction false} MatchRunInvariant(fs: seq<Filter>, fires: Test, max: int, callback: bool)
    ensures MatchRunIs(OfferAll(MatchAdd(fires, max, callback), MATCH_START, fs), fs, fires, max, callback)
  {
    if fs != [] {
      MatchRunInvariant(fs[..|fs| - 1], fires, max, callback);
      NamesOfSnoc(fs);
    }
  }

  /** Match returns the first of the distinct matches, as many as the cap allows, and reports the cap once. */
  lemma MatchRunResult(fs: seq<Filter>, fires: Test, max: int, callback: bool)
    ensures var st, all := OfferAll(MatchAdd(fires, max, callback), MATCH_START, fs), Firsts(fs, fires);
            && st.matched == all[..Capped(max, |all|)]
            && st.calls == LimitCalls(callback, max, |all|)
  {
    MatchRunInvariant(fs, fires, max, callback);
  }

  lemma {:induction false} FirstsMembers(fs: seq<Filter>, fires: Test)
    requires OnePerName(fs)
    ensures DistinctEntries(Firsts(fs, fires))
    ensures forall e :: e in Firsts(fs, fires) <==> exists f :: f in fs && f.entry == e && fires(f)
  {
    if fs != [] {
      var init, last := fs[..|fs| - 1], fs[|fs| - 1];
      assert fs == init + [last];
      FirstsMembers(init, fires);
      assert forall e :: e in Firsts(init, fires) ==> e.name in NamesOf(init);
      if last.entry.name in NamesOf(init) {
        var i :| 0 <= i < |init| && init[i].entry.name == last.entry.name;
        assert init[i] in fs && last in fs && init[i] == last;
      }
    }
  }

  /** A name is never shared by two filters. */
  ghost predicate OnePerName(fs: seq<Filter>)
  {
    forall f, g :: f in fs && g in fs && f.entry.name == g.entry.name ==> f == g
  }

  // ----- what a run of MatchEndpoints collects -----

  /** A run after filters with these names and these hints to report. */
  ghost predicate EndpointRunIs(st: EndpointRun, names: set<string>, hints: set<string>, max: int, callback: bool)
  {
    && Lists(st.endpoints, st.seenHints) && |st.endpoints| == |st.seenHints|
    && if st.done then
         0 < max == |st.endpoints| && st.seenHints <= hints && st.calls == (if callback then [max as nat] else [])
       else
         st.seenNames == names && st.seenHints == hints && st.calls == [] && (max > 0 ==> |st.endpoints| < max)
  }

  function HintOf(f: Filter, fires: Test): set<string>
  {
    if fires(f) && f.entry.hint != "" then {f.entry.hint} else {}
  }

  /** Offering a filter again adds no hint. */
  lemma {:induction false} RepeatAddsNoHint(fs: seq<Filter>, fires: Test)
    requires fs != [] && OnePerName(fs) && fs[|fs| - 1].entry.name in NamesOf(fs[..|fs| - 1])
    ensures HintSet(fs, fires) == HintSet(fs[..|fs| - 1], fires)
  {
    var init, last := fs[..|fs| - 1], fs[|fs| - 1];
    var i :| 0 <= i < |init| && init[i].entry.name == last.entry.name;
    assert init[i] == fs[i] && fs[i] in fs && last in fs && init[i] in init;
    HintSetMembers(init, fires, last.entry.hint);
  }

  /** A filter with a new name fires with a new hint. */
  lemma EndpointNew(st: EndpointRun, f: Filter, fires: Test, names: set<string>, hints: set<string>, max: int,
                    callback: bool)
    requires EndpointRunIs(st, names, hints, max, callback) && !st.done && f.entry.name !in names
    requires fires(f) && f.entry.hint != "" && f.entry.hint !in hints
    ensures EndpointRunIs(EndpointAdd(fires, max, callback)(st, f), names + {f.entry.name}, hints + {f.entry.hint},
                          max, callback)
  {
    var hint := f.entry.hint;
    ListsSnoc(st.endpoints, st.seenHints, hint);
    var r := EndpointAdd(fires, max, callback)(st, f);
    assert r.endpoints == st.endpoints + [hint] && r.seenHints == st.seenHints + {hint};
  }

  lemma {:induction false} EndpointStep(st: EndpointRun, f: Filter, fires: Test, names: set<string>, hints: set<string>,
                                        max: int, callback: bool)
    requires EndpointRunIs(st, names, hints, max, callback) && (f.entry.name in names ==> HintOf(f, fires) <= hints)
    ensures EndpointRunIs(EndpointAdd(fires, max, callback)(st, f), names + {f.entry.name}, hints + HintOf(f, fires),
                          max, callback)
  {
    if !st.done && f.entry.name !in names && !(HintOf(f, fires) <= hints) {
      EndpointNew(st, f, fires, names, hints, max, callback);
    } else {
      var r := EndpointAdd(fires, max, callback)(st, f);
      assert r.endpoints == st.endpoints && r.seenHints == st.seenHints && r.done == st.done && r.calls == st.calls;
      if !st.done {
        assert hints + HintOf(f, fires) == hints;
        assert f.entry.name in names ==> names + {f.entry.name} == names;
      }
    }
  }

  lemma {:induction false} EndpointRunInvariant(fs: seq<Filter>, fires: Test, max: int, callback: bool)
    requires OnePerName(fs)
    ensures EndpointRunIs(OfferAll(EndpointAdd(fires, max, callback), ENDPOINT_START, fs), NamesOf(fs),
                          HintSet(fs, fires), max, callback)
  {
    if fs != [] {
      var init, last := fs[..|fs| - 1], fs[|fs| - 1];
      assert OnePerName(init) by { assert forall f :: f in init ==> f in fs; }
      EndpointRunInvariant(init, fires, max, callback);
      NamesOfSnoc(fs);
      if last.entry.name in NamesOf(init) { RepeatAddsNoHint(fs, fires); }
      EndpointStep(OfferAll(EndpointAdd(fires, max, callback), ENDPOINT_START, init), last, fires,
                   NamesOf(init), HintSet(init, fires), max, callback);
    }
  }

  /** MatchEndpoints returns distinct hints, all or as many as the cap allows, and reports the cap once. */
  lemma {:induction false} EndpointRunResult(fs: seq<Filter>, fires: Test, max: int, callback: bool)
    requires OnePerName(fs)
    ensures var st := OfferAll(EndpointAdd(fires, max, callback), ENDPOINT_START, fs);
            && EndpointsOf(fs, fires, max, st.endpoints)
            && st.calls == LimitCalls(callback, max, |HintSet(fs, fires)|)
  {
    EndpointRunInvariant(fs, fires, max, callback);
    var st := OfferAll(EndpointAdd(fires, max, callback), ENDPOINT_START, fs);
    SubsetSize(st.seenHints, HintSet(fs, fires));
  }
}
