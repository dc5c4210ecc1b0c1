/**
 Registered filters as a list, oldest first: what both filter sets of
 cloudevent/cefilter hold, and the linear scan that says how they must answer.
 */
module Registry {
  import opened Charset
  import opened Filters
  import Parsing

  /** contracts.FilterEntry. */
  datatype FilterEntry = FilterEntry(name: string, hint: string, metadata: map<string, string>)

  /** A compiled filter: namedFilter and indexedEntry. */
  datatype Filter = Filter(entry: FilterEntry, pred: Predicate)

  /** Which filters fire on the event at hand. */
  type Test = Filter -> bool

  /** e.pred.Match(a) */
  function On(a: Attrs): Test
  {
    (f: Filter) => Match(f.pred, a)
  }

  ghost predicate DistinctNames(fs: seq<Filter>)
  {
    forall i, j :: 0 <= i < j < |fs| ==> fs[i].entry.name != fs[j].entry.name
  }

  ghost function NamesOf(fs: seq<Filter>): set<string>
  {
    set i | 0 <= i < |fs| :: fs[i].entry.name
  }

  /** The members that pass, in their original order. */
  function Where<T>(xs: seq<T>, pass: T -> bool): seq<T>
  {
    if xs == [] then []
    else Where(xs[..|xs| - 1], pass) + (if pass(xs[|xs| - 1]) then [xs[|xs| - 1]] else [])
  }

  lemma {:induction false} WhereMembers<T>(xs: seq<T>, pass: T -> bool)
    ensures |Where(xs, pass)| <= |xs|
    ensures forall x :: x in Where(xs, pass) <==> x in xs && pass(x)
  {
    if xs != [] {
      var init, last := xs[..|xs| - 1], xs[|xs| - 1];
      WhereMembers(init, pass);
      assert xs == init + [last];
    }
  }

  function Other(name: string): Test
  {
    (f: Filter) => f.entry.name != name
  }

  /** The filters with another name. */
  function KeepOthers(fs: seq<Filter>, name: string): seq<Filter>
  {
    Where(fs, Other(name))
  }

  lemma WhereSnoc<T>(xs: seq<T>, x: T, pass: T -> bool)
    ensures Where(xs + [x], pass) == Where(xs, pass) + (if pass(x) then [x] else [])
  {
    assert (xs + [x])[..|xs|] == xs;
  }

  lemma WherePrefix<T>(xs: seq<T>, i: nat, pass: T -> bool)
    requires i < |xs|
    ensures Where(xs[..i + 1], pass) == Where(xs[..i], pass) + (if pass(xs[i]) then [xs[i]] else [])
  {
    assert xs[..i + 1][..i] == xs[..i];
  }

  lemma {:induction false} WhereConcat<T>(xs: seq<T>, ys: seq<T>, pass: T -> bool)
    ensures Where(xs + ys, pass) == Where(xs, pass) + Where(ys, pass)
  {
    if ys == [] {
      assert xs + ys == xs;
    } else {
      var init, last := ys[..|ys| - 1], ys[|ys| - 1];
      WhereConcat(xs, init, pass);
      WhereSnoc(xs + init, last, pass);
      assert xs + ys == xs + init + [last];
    }
  }

  lemma NothingAdded<T>(xs: seq<T>)
    ensures xs + [] == xs
  {
  }

  /** Two selections commute. */
  lemma {:induction false} WhereCommutes<T>(xs: seq<T>, p: T -> bool, q: T -> bool)
    ensures Where(Where(xs, p), q) == Where(Where(xs, q), p)
  {
    if xs != [] {
      var init, last := xs[..|xs| - 1], xs[|xs| - 1];
      WhereCommutes(init, p, q);
      WhereSnoc(Where(init, p), last, q);
      WhereSnoc(Where(init, q), last, p);
      NothingAdded(Where(init, p));
      NothingAdded(Where(init, q));
      NothingAdded(Where(Where(init, p), q));
    }
  }

  /** The entries of all filters that match, oldest filter first. */
  function Hits(fs: seq<Filter>, fires: Test): seq<FilterEntry>
  {
    if fs == [] then []
    else Hits(fs[..|fs| - 1], fires) + (if fires(fs[|fs| - 1]) then [fs[|fs| - 1].entry] else [])
  }

  lemma {:induction false} HitsMembers(fs: seq<Filter>, fires: Test)
    ensures |Hits(fs, fires)| <= |fs|
    ensures forall e :: e in Hits(fs, fires) <==> exists f :: f in fs && f.entry == e && fires(f)
  {
    if fs != [] {
      HitsMembers(fs[..|fs| - 1], fires);
      assert fs == fs[..|fs| - 1] + [fs[|fs| - 1]];
    }
  }

  /** The distinct non-empty hints of all filters that match. */
  function HintSet(fs: seq<Filter>, fires: Test): set<string>
  {
    if fs == [] then {}
    else
      var last := fs[|fs| - 1];
      HintSet(fs[..|fs| - 1], fires) + (if fires(last) && last.entry.hint != "" then {last.entry.hint} else {})
  }

  /** MaxMatches: 0 and below mean unlimited. */
  function Capped(max: int, n: nat): nat
  {
    if max > 0 && max < n then max else n
  }

  /** The calls of the limit callback, each with its count, when n answers were to be had. */
  function LimitCalls(callback: bool, max: int, n: nat): seq<nat>
  {
    if callback && 0 < max <= n then [max] else []
  }

  // ----- histories -----

  datatype Op = Add(entry: FilterEntry, expr: string) | Remove(name: string)

  /** Add replaces by name and ignores an expression that does not parse. */
  function Apply(cs: Charset, fs: seq<Filter>, op: Op): seq<Filter>
  {
    match op
    case Remove(name) => KeepOthers(fs, name)
    case Add(entry, expr) =>
      var p := Parsing.Parse(cs, expr);
      if p.None? then fs else KeepOthers(fs, entry.name) + [Filter(entry, p.value)]
  }

  function Replay(cs: Charset, ops: seq<Op>): seq<Filter>
  {
    if ops == [] then [] else Apply(cs, Replay(cs, ops[..|ops| - 1]), ops[|ops| - 1])
  }

  /** The map from names to filters that a list stands for. */
  ghost predicate Holds(fs: seq<Filter>, m: map<string, Filter>)
  {
    && DistinctNames(fs)
    && (forall f :: f in fs ==> f.entry.name in m && m[f.entry.name] == f)
    && (forall name :: name in m ==> m[name] in fs && m[name].entry.name == name)
  }

  /** The same operation on the map. */
  function ApplyToMap(cs: Charset, m: map<string, Filter>, op: Op): map<string, Filter>
  {
    match op
    case Remove(name) => m - {name}
    case Add(entry, expr) =>
      var p := Parsing.Parse(cs, expr);
      if p.None? then m else m[entry.name := Filter(entry, p.value)]
  }

  function ReplayMap(cs: Charset, ops: seq<Op>): map<string, Filter>
  {
    if ops == [] then map[] else ApplyToMap(cs, ReplayMap(cs, ops[..|ops| - 1]), ops[|ops| - 1])
  }

  lemma {:induction false} WhereDistinct(fs: seq<Filter>, pass: Test)
    requires DistinctNames(fs)
    ensures DistinctNames(Where(fs, pass))
  {
    if fs != [] {
      var init, last := fs[..|fs| - 1], fs[|fs| - 1];
      WhereDistinct(init, pass);
      WhereMembers(init, pass);
      SnocDistinct(Where(init, pass), last);
    }
  }

  lemma SnocDistinct(fs: seq<Filter>, f: Filter)
    requires DistinctNames(fs) && forall g :: g in fs ==> g.entry.name != f.entry.name
    ensures DistinctNames(fs + [f])
  {
  }

  lemma {:induction false} KeepOthersAbsent(fs: seq<Filter>, name: string)
    requires forall f :: f in fs ==> f.entry.name != name
    ensures KeepOthers(fs, name) == fs
  {
    if fs != [] {
      KeepOthersAbsent(fs[..|fs| - 1], name);
      assert fs == fs[..|fs| - 1] + [fs[|fs| - 1]];
    }
  }

  lemma ApplyHolds(cs: Charset, fs: seq<Filter>, m: map<string, Filter>, op: Op)
    requires Holds(fs, m)
    ensures Holds(Apply(cs, fs, op), ApplyToMap(cs, m, op))
  {
    match op
    case Remove(name) =>
      WhereDistinct(fs, Other(name));
      WhereMembers(fs, Other(name));
    case Add(entry, expr) =>
      if Parsing.Parse(cs, expr).Some? {
        WhereDistinct(fs, Other(entry.name));
        WhereMembers(fs, Other(entry.name));
        SnocDistinct(KeepOthers(fs, entry.name), Filter(entry, Parsing.Parse(cs, expr).value));
      }
  }

  /** After every history the list has distinct names and holds the last version of each. */
  lemma {:induction false} ReplayHolds(cs: Charset, ops: seq<Op>)
    ensures Holds(Replay(cs, ops), ReplayMap(cs, ops))
  {
    if ops != [] {
      ReplayHolds(cs, ops[..|ops| - 1]);
      ApplyHolds(cs, Replay(cs, ops[..|ops| - 1]), ReplayMap(cs, ops[..|ops| - 1]), ops[|ops| - 1]);
    }
  }

  // ----- facts about the scan -----

  /** Removing a name takes its entries out of every answer and leaves the others in place. */
  lemma {:induction false} HitsOfOthers(fs: seq<Filter>, name: string, fires: Test)
    ensures Hits(KeepOthers(fs, name), fires) == EntriesOfOthers(Hits(fs, fires), name)
  {
    if fs != [] {
      var init, last := fs[..|fs| - 1], fs[|fs| - 1];
      HitsOfOthers(init, name, fires);
      var kept := KeepOthers(init, name);
      if last.entry.name != name { assert (kept + [last])[..|kept|] == kept; }
      else { assert kept + [] == kept; }
      var hits := Hits(init, fires);
      if fires(last) { assert (hits + [last.entry])[..|hits|] == hits; }
      else { assert hits + [] == hits; }
    }
  }

  function EntriesOfOthers(es: seq<FilterEntry>, name: string): seq<FilterEntry>
  {
    if es == [] then []
    else EntriesOfOthers(es[..|es| - 1], name) + (if es[|es| - 1].name != name then [es[|es| - 1]] else [])
  }

  ghost predicate DistinctEntries(es: seq<FilterEntry>)
  {
    forall i, j :: 0 <= i < j < |es| ==> es[i].name != es[j].name
  }

  lemma {:induction false} HitsDistinct(fs: seq<Filter>, fires: Test)
    requires DistinctNames(fs)
    ensures DistinctEntries(Hits(fs, fires))
  {
    if fs != [] {
      var init, last := fs[..|fs| - 1], fs[|fs| - 1];
      HitsDistinct(init, fires);
      HitsMembers(init, fires);
      assert last.entry.name !in NamesOf(init);
      forall e | e in Hits(init, fires) ensures e.name != last.entry.name {
        var f :| f in init && f.entry == e;
      }
    }
  }

  /** A list without repetitions whose members all occur in another is a part of it. */
  lemma {:induction false} DistinctIncluded<T>(xs: seq<T>, ys: seq<T>)
    requires forall i, j :: 0 <= i < j < |xs| ==> xs[i] != xs[j]
    requires forall x :: x in xs ==> x in ys
    ensures multiset(xs) <= multiset(ys) && |xs| <= |ys|
  {
    if xs != [] {
      var init, last := xs[..|xs| - 1], xs[|xs| - 1];
      assert xs == init + [last];
      DistinctIncluded(init, ys);
      assert last in xs && last in ys;
      assert last !in multiset(init) && last in multiset(ys);
      assert multiset(xs) == multiset(init) + multiset{last};
    }
    assert multiset(ys) == multiset(xs) + (multiset(ys) - multiset(xs));
    assert |multiset(xs)| == |xs| && |multiset(ys)| == |ys|;
  }

  /** xs lists the members of s, each once. */
  ghost predicate Lists(xs: seq<string>, s: set<string>)
  {
    multiset(xs) == multiset(s)
  }

  lemma ListsSnoc(xs: seq<string>, s: set<string>, x: string)
    requires Lists(xs, s) && x !in s
    ensures Lists(xs + [x], s + {x}) && |xs| + 1 == |s + {x}|
  {
    ListsSize(xs, s);
  }

  lemma ListsSize(xs: seq<string>, s: set<string>)
    requires Lists(xs, s)
    ensures |xs| == |s|
  {
    assert |multiset(xs)| == |xs| && |multiset(s)| == |s|;
  }

  /** A capped answer of MatchEndpoints: some of the hints, each once, and all that the cap allows. */
  ghost predicate EndpointsOf(fs: seq<Filter>, fires: Test, max: int, endpoints: seq<string>)
  {
    exists s :: Lists(endpoints, s) && s <= HintSet(fs, fires) && |s| == Capped(max, |HintSet(fs, fires)|)
  }

  lemma HintSnoc(fs: seq<Filter>, i: nat, fires: Test)
    requires i < |fs|
    ensures HintSet(fs[..i + 1], fires) ==
            HintSet(fs[..i], fires) + (if fires(fs[i]) && fs[i].entry.hint != "" then {fs[i].entry.hint} else {})
  {
    assert fs[..i + 1][..i] == fs[..i];
  }

  lemma {:induction false} HintPrefix(fs: seq<Filter>, n: nat, fires: Test)
    requires n <= |fs|
    ensures HintSet(fs[..n], fires) <= HintSet(fs, fires)
  {
    if n < |fs| {
      var init := fs[..|fs| - 1];
      HintPrefix(init, n, fires);
      assert init[..n] == fs[..n];
    } else {
      assert fs[..n] == fs;
    }
  }

  lemma {:induction false} HintSetMembers(fs: seq<Filter>, fires: Test, hint: string)
    ensures hint in HintSet(fs, fires) <==> exists f :: f in fs && fires(f) && f.entry.hint == hint != ""
  {
    if fs != [] {
      HintSetMembers(fs[..|fs| - 1], fires, hint);
      assert fs == fs[..|fs| - 1] + [fs[|fs| - 1]];
    }
  }

  lemma SubsetSize<T>(s: set<T>, t: set<T>)
    requires s <= t
    ensures |s| <= |t|
    ensures |s| == |t| ==> s == t
  {
    assert t == s + (t - s);
  }

  lemma {:induction false} RepeatIsCounted<T>(xs: seq<T>, i: nat, j: nat)
    requires i < j < |xs| && xs[i] == xs[j]
    ensures multiset(xs)[xs[i]] >= 2
  {
    assert xs == xs[..j] + xs[j..];
    assert xs[i] in xs[..j] && xs[j] in xs[j..];
  }

  lemma ListsOnce(xs: seq<string>, s: set<string>)
    requires Lists(xs, s)
    ensures forall x :: x in xs <==> x in s
    ensures forall i, j :: 0 <= i < j < |xs| ==> xs[i] != xs[j]
  {
    forall x ensures x in xs <==> x in s { assert x in multiset(xs) <==> x in multiset(s); }
    forall i, j | 0 <= i < j < |xs| ensures xs[i] != xs[j] {
      if xs[i] == xs[j] { RepeatIsCounted(xs, i, j); }
    }
  }

  /** What a capped answer of MatchEndpoints holds, hint by hint. */
  lemma EndpointsAre(fs: seq<Filter>, fires: Test, max: int, endpoints: seq<string>)
    requires EndpointsOf(fs, fires, max, endpoints)
    ensures forall h :: h in endpoints ==> h in HintSet(fs, fires)
    ensures forall i, j :: 0 <= i < j < |endpoints| ==> endpoints[i] != endpoints[j]
    ensures max > 0 ==> |endpoints| <= max
    ensures max <= 0 || |endpoints| < max ==> forall h :: h in HintSet(fs, fires) ==> h in endpoints
  {
    var hints := HintSet(fs, fires);
    var s :| Lists(endpoints, s) && s <= hints && |s| == Capped(max, |hints|);
    ListsOnce(endpoints, s);
    ListsSize(endpoints, s);
    SubsetSize(s, hints);
  }
}
