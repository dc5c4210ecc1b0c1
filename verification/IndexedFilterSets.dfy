/** IndexedFilterSet of cloudevent/cefilter/index.go: every answer is the linear scan's. */
module IndexedFilterSets {
  import opened Charset
  import opened Filters
  import opened TypeConstraints
  import opened Registry
  import opened Slices
  import opened Buckets
  import opened FilterIndex
  import opened Collecting
  import Glob
  import Parsing

  // ----- offered filters and registered filters give the same answers -----

  lemma CandidatesOnePerName(fs: seq<Filter>, exact: map<string, seq<Filter>>, globs: seq<GlobEntry>, wild: seq<Filter>,
                             t: string)
    requires Indexes(fs, exact, globs, wild) && DistinctNames(fs)
    ensures OnePerName(Candidates(exact, globs, wild, t))
  {
    var cands := Candidates(exact, globs, wild, t);
    forall f, g | f in cands && g in cands && f.entry.name == g.entry.name ensures f == g {
      CandidatesAreRegistered(fs, exact, globs, wild, t, f);
      CandidatesAreRegistered(fs, exact, globs, wild, t, g);
    }
  }

  /** The same filters fire among those offered and those registered. */
  lemma SameFire(fs: seq<Filter>, exact: map<string, seq<Filter>>, globs: seq<GlobEntry>, wild: seq<Filter>, a: Attrs)
    requires Indexes(fs, exact, globs, wild)
    ensures forall f :: On(a)(f) ==> (f in fs <==> f in Candidates(exact, globs, wild, TypeOf(a)))
  {
    var cands := Candidates(exact, globs, wild, TypeOf(a));
    forall f | On(a)(f) ensures f in fs <==> f in cands {
      if f in fs { MatchingIsOffered(fs, exact, globs, wild, a, f); }
      if f in cands { CandidatesAreRegistered(fs, exact, globs, wild, TypeOf(a), f); }
    }
  }

  lemma SameMembersSameMultiset(xs: seq<FilterEntry>, ys: seq<FilterEntry>)
    requires DistinctEntries(xs) && DistinctEntries(ys)
    requires forall e :: e in xs <==> e in ys
    ensures multiset(xs) == multiset(ys)
  {
    DistinctIncluded(xs, ys);
    DistinctIncluded(ys, xs);
  }

  /** Uncapped Match answers with the entries of the linear scan, each once. */
  lemma {:induction false} SameHits(fs: seq<Filter>, exact: map<string, seq<Filter>>, globs: seq<GlobEntry>,
                                    wild: seq<Filter>, a: Attrs)
    requires Indexes(fs, exact, globs, wild) && DistinctNames(fs)
    ensures var all := Firsts(Candidates(exact, globs, wild, TypeOf(a)), On(a));
            multiset(all) == multiset(Hits(fs, On(a))) && |all| == |Hits(fs, On(a))| && DistinctEntries(all)
  {
    var cands := Candidates(exact, globs, wild, TypeOf(a));
    var all, hits := Firsts(cands, On(a)), Hits(fs, On(a));
    CandidatesOnePerName(fs, exact, globs, wild, TypeOf(a));
    SameFire(fs, exact, globs, wild, a);
    FirstsMembers(cands, On(a));
    HitsMembers(fs, On(a));
    HitsDistinct(fs, On(a));
    SameMembersSameMultiset(all, hits);
    assert |multiset(all)| == |all| && |multiset(hits)| == |hits|;
  }

  lemma SameHints(fs: seq<Filter>, exact: map<string, seq<Filter>>, globs: seq<GlobEntry>, wild: seq<Filter>, a: Attrs)
    requires Indexes(fs, exact, globs, wild)
    ensures HintSet(Candidates(exact, globs, wild, TypeOf(a)), On(a)) == HintSet(fs, On(a))
  {
    var cands := Candidates(exact, globs, wild, TypeOf(a));
    SameFire(fs, exact, globs, wild, a);
    forall h ensures h in HintSet(cands, On(a)) <==> h in HintSet(fs, On(a)) {
      HintSetMembers(cands, On(a), h);
      HintSetMembers(fs, On(a), h);
    }
  }

  // ----- one step of a history on the structures -----

  /** The structures after the entries of a name are filtered out. */
  lemma {:induction false} IndexesOthers(fs: seq<Filter>, exact: map<string, seq<Filter>>, globs: seq<GlobEntry>,
                                         wild: seq<Filter>, name: string, exact': map<string, seq<Filter>>)
    requires Indexes(fs, exact, globs, wild) && exact' == DroppedFrom(exact, name, {})
    ensures Indexes(KeepOthers(fs, name), exact', Where(globs, OtherGlob(name)), KeepOthers(wild, name))
  {
    forall t ensures Bucket(exact', t) == Where(KeepOthers(fs, name), HasType(t)) {
      assert Bucket(exact, t) == Where(fs, HasType(t));
      DroppedBucket(exact, name, t);
      WhereCommutes(fs, HasType(t), Other(name));
    }
    GlobsOfOthers(fs, name);
    WhereCommutes(fs, IsWild(), Other(name));
  }

  /** The structures after a filter is filed. */
  lemma IndexesSnoc(fs: seq<Filter>, exact: map<string, seq<Filter>>, globs: seq<GlobEntry>, wild: seq<Filter>,
                    f: Filter, exact': map<string, seq<Filter>>)
    requires Indexes(fs, exact, globs, wild) && Filing(exact, exact', Extract(f.pred).exact, {}, f)
    ensures Indexes(fs + [f], exact', globs + GlobsFor(f), if IsWild()(f) then wild + [f] else wild)
  {
    forall t ensures Bucket(exact', t) == Where(fs + [f], HasType(t)) {
      assert Bucket(exact, t) == Where(fs, HasType(t));
      WhereSnoc(fs, f, HasType(t));
    }
    GlobsOfSnoc(fs, f);
    WhereSnoc(fs, f, IsWild());
    assert wild + [] == wild;
  }

  /** The names and the three structures are those of the registered filters. */
  ghost predicate Registers(fs: seq<Filter>, names: set<string>, exact: map<string, seq<Filter>>, globs: seq<GlobEntry>,
                            wild: seq<Filter>)
  {
    DistinctNames(fs) && names == NamesOf(fs) && Indexes(fs, exact, globs, wild)
  }

  lemma RegistersSnoc(fs: seq<Filter>, names: set<string>, exact: map<string, seq<Filter>>, globs: seq<GlobEntry>,
                      wild: seq<Filter>, f: Filter, exact': map<string, seq<Filter>>)
    requires Registers(fs, names, exact, globs, wild) && f.entry.name !in names
    requires Filing(exact, exact', Extract(f.pred).exact, {}, f)
    ensures Registers(fs + [f], names + {f.entry.name}, exact', globs + GlobsFor(f),
                      if IsWild()(f) then wild + [f] else wild)
  {
    IndexesSnoc(fs, exact, globs, wild, f, exact');
    assert forall g :: g in fs ==> g.entry.name in NamesOf(fs);
    SnocDistinct(fs, f);
    NamesOfSnoc(fs + [f]);
    assert (fs + [f])[..|fs|] == fs;
  }

  lemma {:induction false} RegistersOthers(fs: seq<Filter>, names: set<string>, exact: map<string, seq<Filter>>,
                                           globs: seq<GlobEntry>, wild: seq<Filter>, name: string,
                                           exact': map<string, seq<Filter>>)
    requires Registers(fs, names, exact, globs, wild) && exact' == DroppedFrom(exact, name, {})
    ensures Registers(KeepOthers(fs, name), names - {name}, exact', Where(globs, OtherGlob(name)),
                      KeepOthers(wild, name))
  {
    IndexesOthers(fs, exact, globs, wild, name, exact');
    WhereDistinct(fs, Other(name));
    OtherNames(fs, name);
  }

  lemma OtherNames(fs: seq<Filter>, name: string)
    ensures NamesOf(KeepOthers(fs, name)) == NamesOf(fs) - {name}
  {
    WhereMembers(fs, Other(name));
    forall n | n in NamesOf(fs) - {name} ensures n in NamesOf(KeepOthers(fs, name)) {
      var i :| 0 <= i < |fs| && fs[i].entry.name == n;
      assert fs[i] in KeepOthers(fs, name);
    }
    forall n | n in NamesOf(KeepOthers(fs, name)) ensures n in NamesOf(fs) - {name} {
      var i :| 0 <= i < |KeepOthers(fs, name)| && KeepOthers(fs, name)[i].entry.name == n;
      assert KeepOthers(fs, name)[i] in fs;
    }
  }

  datatype IndexStats = IndexStats(total: nat, exactTypeBuckets: nat, globEntries: nat, unconstrained: nat)

  /**
   All methods run under one lock, so each call is one step. The ghost list
   order holds the registered filters in the order they were last added.
   */
  class IndexedFilterSet {
    const cs: Charset
    var maxMatches: int
    var callback: bool
    var names: set<string>
    var exactIndex: map<string, Slice<Filter>>
    var globEntries: Slice<GlobEntry>
    var wildcardEntries: Slice<Filter>
    ghost var exact: map<string, seq<Filter>>
    ghost var globs: seq<GlobEntry>
    ghost var wild: seq<Filter>
    ghost var order: seq<Filter>

    ghost var repr: set<object>

    /** The slices beside the buckets share no array with them, and globs and wild are what they show. */
    ghost predicate LaidBeside()
      reads `exactIndex, `globEntries, `wildcardEntries, `globs, `wild, `repr, repr
    {
      && this !in repr && globEntries.arr in repr && wildcardEntries.arr in repr
      && (forall k :: k in exactIndex ==> exactIndex[k].arr in repr)
      && wildcardEntries.Fits() && globEntries.Fits() && wildcardEntries.arr !in Arrays(exactIndex)
      && globEntries.View() == globs && wildcardEntries.View() == wild
    }

    /** No two slices share an array, and exact, globs and wild are what they show. */
    ghost predicate Laid()
      reads `exactIndex, `globEntries, `wildcardEntries, `exact, `globs, `wild, `repr, repr
    {
      LaidBeside() && Separate(exactIndex) && Shows(exactIndex, exact)
    }

    /** What the slices show is the index of the registered filters. */
    ghost predicate Valid()
      reads this, repr
    {
      Laid() && Registers(order, names, exact, globs, wild)
    }

    constructor (cs: Charset)
      ensures Valid() && this.cs == cs && order == [] && maxMatches == 0 && !callback
      ensures fresh(repr)
    {
      this.cs := cs;
      maxMatches, callback := 0, false;
      var noGlobs := Empty();
      var noWild := Empty();
      names, exactIndex, globEntries, wildcardEntries := {}, map[], noGlobs, noWild;
      exact, globs, wild, order := map[], [], [], [];
      repr := {noGlobs.arr, noWild.arr};
    }

    /** Replaces by name; an expression that does not parse changes nothing. */
    method Add(entry: FilterEntry, expr: string) returns (ok: bool)
      requires Valid()
      modifies this, repr
      ensures Valid() && maxMatches == old(maxMatches) && callback == old(callback)
      ensures fresh(repr - old(repr))
      ensures ok <==> Parsing.Parse(cs, expr).Some?
      ensures order == Apply(cs, old(order), Op.Add(entry, expr))
    {
      var p := Parsing.ParseExpression(cs, expr);
      ok := p.Some?;
      if !ok { return; }
      var f := Filter(entry, p.value);
      var tc := ExtractTypeConstraint(p.value);
      MakeRoom(entry.name);
      File(f, tc);
    }

    /** An earlier version of the name gives way. */
    method MakeRoom(name: string)
      requires Valid()
      modifies this, repr
      ensures Valid() && name !in names && order == KeepOthers(old(order), name) && repr == old(repr)
      ensures maxMatches == old(maxMatches) && callback == old(callback)
    {
      if name in names {
        RemoveLocked(name);
      } else {
        assert forall g :: g in order ==> g.entry.name in NamesOf(order);
        KeepOthersAbsent(order, name);
      }
    }

    method File(f: Filter, tc: TypeConstraint)
      requires Valid() && tc == Extract(f.pred) && f.entry.name !in names
      modifies this, repr
      ensures Valid() && order == old(order) + [f] && fresh(repr - old(repr))
      ensures maxMatches == old(maxMatches) && callback == old(callback)
    {
      FileSlices(f, tc);
      Register(f, old(exact), old(globs), old(wild));
    }

    /** The bookkeeping of a registration. */
    method Register(f: Filter, ghost exact0: map<string, seq<Filter>>, ghost globs0: seq<GlobEntry>,
                    ghost wild0: seq<Filter>)
      requires Laid() && Registers(order, names, exact0, globs0, wild0) && f.entry.name !in names
      requires Filing(exact0, exact, Extract(f.pred).exact, {}, f) && globs == globs0 + GlobsFor(f)
      requires wild == wild0 + (if IsWild()(f) then [f] else [])
      modifies `names, `order
      ensures Valid() && order == old(order) + [f]
    {
      RegistersSnoc(order, names, exact0, globs0, wild0, f, exact);
      names, order := names + {f.entry.name}, order + [f];
    }

    /** The switch of Add: files a filter under its types, its globs or as a wildcard. */
    method FileSlices(f: Filter, tc: TypeConstraint)
      requires Laid() && NoEmptyBucket(exact) && tc == Extract(f.pred)
      modifies `exactIndex, `globEntries, `wildcardEntries, `exact, `globs, `wild, `repr, repr
      ensures Laid() && fresh(repr - old(repr))
      ensures Filing(old(exact), exact, tc.exact, {}, f) && globs == old(globs) + GlobsFor(f)
      ensures wild == old(wild) + (if IsWild()(f) then [f] else [])
    {
      if tc.unconstrained {
        NothingToFile(f, exact, globs);
        FileWild(f);
      } else {
        FileTyped(f, tc);
        if |tc.exact| == 0 && |tc.globs| == 0 { FileWild(f); }
      }
    }

    method FileWild(f: Filter)
      requires Laid()
      modifies `wildcardEntries, `wild, `repr, repr
      ensures Laid() && fresh(repr - old(repr)) && wild == old(wild) + [f]
    {
      wildcardEntries := Append(wildcardEntries, f);
      wild, repr := wild + [f], repr + {wildcardEntries.arr};
    }

    /** The two loops over the exact types and the globs. */
    method FileTyped(f: Filter, tc: TypeConstraint)
      requires Laid() && NoEmptyBucket(exact) && tc == Extract(f.pred)
      modifies `exactIndex, `globEntries, `exact, `globs, `repr, repr
      ensures Laid() && fresh(repr - old(repr))
      ensures Filing(old(exact), exact, tc.exact, {}, f) && globs == old(globs) + GlobsFor(f)
    {
      FileTypes(f, tc.exact);
      FileAllGlobs(f);
    }

    method FileTypes(f: Filter, types: set<string>)
      requires Laid() && NoEmptyBucket(exact)
      modifies `exactIndex, `exact, `repr, repr
      ensures Laid() && fresh(repr - old(repr)) && Filing(old(exact), exact, types, {}, f)
    {
      var r, filed := FileExact(exactIndex, exact, types, f);
      assert globEntries.View() == globs;
      assert wildcardEntries.View() == wild;
      exactIndex, exact, repr := r, filed, repr + Arrays(r);
    }

    method FileAllGlobs(f: Filter)
      requires Laid()
      modifies `globEntries, `globs, `repr, repr
      ensures Laid() && fresh(repr - old(repr)) && globs == old(globs) + GlobsFor(f)
    {
      globEntries := FileGlobs(globEntries, f);
      globs, repr := globs + GlobsFor(f), repr + {globEntries.arr};
    }

    static lemma NothingToFile(f: Filter, exact: map<string, seq<Filter>>, globs: seq<GlobEntry>)
      requires Extract(f.pred).unconstrained && NoEmptyBucket(exact)
      ensures globs + GlobsFor(f) == globs && Filing(exact, exact, Extract(f.pred).exact, {}, f)
    {
      UnconstrainedIsBare(f.pred);
      FilingStarts(exact, {}, f);
    }

    method Remove(name: string)
      requires Valid()
      modifies this, repr
      ensures Valid() && maxMatches == old(maxMatches) && callback == old(callback)
      ensures repr == old(repr)
      ensures order == Apply(cs, old(order), Op.Remove(name))
    {
      RemoveLocked(name);
    }

    /** removeLocked: every slice keeps exactly the entries of other names, in order, in its own array. */
    method RemoveLocked(name: string)
      requires Valid()
      modifies this, repr
      ensures Valid() && name !in names && order == KeepOthers(old(order), name) && repr == old(repr)
      ensures InPlace(old(exactIndex), exactIndex) && globEntries.arr == old(globEntries.arr)
      ensures wildcardEntries.arr == old(wildcardEntries.arr)
      ensures exact == DroppedFrom(old(exact), name, {}) && globs == Where(old(globs), OtherGlob(name))
      ensures wild == KeepOthers(old(wild), name)
      ensures maxMatches == old(maxMatches) && callback == old(callback)
    {
      CompactAll(name);
      Unregister(name, old(exact), old(globs), old(wild));
    }

    /** The bookkeeping of a removal. */
    method Unregister(name: string, ghost exact0: map<string, seq<Filter>>, ghost globs0: seq<GlobEntry>,
                      ghost wild0: seq<Filter>)
      requires Laid() && Registers(order, names, exact0, globs0, wild0)
      requires exact == DroppedFrom(exact0, name, {}) && globs == Where(globs0, OtherGlob(name))
      requires wild == KeepOthers(wild0, name)
      modifies `names, `order
      ensures Valid() && order == KeepOthers(old(order), name) && names == old(names) - {name}
    {
      RegistersOthers(order, names, exact0, globs0, wild0, name, exact);
      names, order := names - {name}, KeepOthers(order, name);
    }

    method CompactAll(name: string)
      requires Laid()
      modifies `exactIndex, `globEntries, `wildcardEntries, `exact, `globs, `wild, repr
      ensures Laid()
      ensures InPlace(old(exactIndex), exactIndex) && globEntries.arr == old(globEntries.arr)
      ensures wildcardEntries.arr == old(wildcardEntries.arr)
      ensures exact == DroppedFrom(old(exact), name, {}) && globs == Where(old(globs), OtherGlob(name))
      ensures wild == KeepOthers(old(wild), name)
    {
      CompactBuckets(name);
      CompactGlobs(name);
      CompactWild(name);
    }

    /** Each bucket is compacted in its array; the glob and the wildcard slices stay as they are. */
    method CompactBuckets(name: string)
      requires Laid()
      modifies `exactIndex, `exact, repr
      ensures Laid() && InPlace(old(exactIndex), exactIndex) && exact == DroppedFrom(old(exact), name, {})
    {
      var r := CompactedBuckets(name);
      Install(r, DroppedFrom(exact, name, {}));
    }

    method CompactedBuckets(name: string) returns (r: map<string, Slice<Filter>>)
      requires Laid()
      modifies repr
      ensures LaidBeside() && Separate(r) && InPlace(exactIndex, r) && Shows(r, DroppedFrom(exact, name, {}))
    {
      r := DropFromBuckets(exactIndex, exact, name);
      assert globEntries.View() == globs;
      assert wildcardEntries.View() == wild;
    }

    /** The map of the buckets is replaced by one over arrays it had. */
    method Install(buckets: map<string, Slice<Filter>>, ghost shown: map<string, seq<Filter>>)
      requires LaidBeside() && Separate(buckets) && InPlace(exactIndex, buckets) && Shows(buckets, shown)
      modifies `exactIndex, `exact
      ensures Laid() && exactIndex == buckets && exact == shown
    {
      exactIndex, exact := buckets, shown;
    }

    method CompactGlobs(name: string)
      requires Laid()
      modifies `globEntries, `globs, repr
      ensures Laid() && globEntries.arr == old(globEntries.arr) && globs == Where(old(globs), OtherGlob(name))
    {
      globEntries := Compact(globEntries, OtherGlob(name));
      globs := Where(globs, OtherGlob(name));
    }

    method CompactWild(name: string)
      requires Laid()
      modifies `wildcardEntries, `wild, repr
      ensures Laid() && wildcardEntries.arr == old(wildcardEntries.arr) && wild == KeepOthers(old(wild), name)
    {
      wildcardEntries := Compact(wildcardEntries, Other(name));
      wild := KeepOthers(wild, name);
    }

    /** The entries the three loops go through. */
    method Entries(t: string) returns (bucket: seq<Filter>, globs: seq<GlobEntry>, wild: seq<Filter>)
      requires Laid()
      ensures bucket == Bucket(exact, t) && globs == this.globs && wild == this.wild
    {
      bucket := if t in exactIndex then exactIndex[t].arr[..exactIndex[t].len] else [];
      globs := globEntries.arr[..globEntries.len];
      wild := wildcardEntries.arr[..wildcardEntries.len];
    }

    /** The filters whose glob accepts t, by the loop over globEntries. */
    static method GlobHits(globs: seq<GlobEntry>, t: string) returns (fs: seq<Filter>)
      ensures fs == FiltersOf(Where(globs, GlobAccepts(t)))
    {
      fs := [];
      for i := 0 to |globs|
        invariant fs == FiltersOf(Where(globs[..i], GlobAccepts(t)))
      {
        WherePrefix(globs, i, GlobAccepts(t));
        if Glob.Accepts(globs[i].rx, t) { fs := fs + [globs[i].filter]; }
      }
      assert globs[..|globs|] == globs;
    }

    /** MatchAny answers what the linear scan would. */
    method MatchAny(a: Attrs) returns (r: bool)
      requires Valid()
      ensures r <==> Hits(order, On(a)) != []
    {
      var t := TypeOf(a);
      var bucket, globs, wild := Entries(t);
      SameFire(order, exact, globs, wild, a);
      AnyHit(order, a);
      r := AnyFires(bucket, On(a));
      if r { return; }
      var hits := GlobHits(globs, t);
      r := AnyFires(hits, On(a));
      if r { return; }
      r := AnyFires(wild, On(a));
    }

    /** One of the loops of MatchAny. */
    static method AnyFires(fs: seq<Filter>, fires: Test) returns (r: bool)
      ensures r <==> exists f :: f in fs && fires(f)
    {
      for i := 0 to |fs|
        invariant forall f :: f in fs[..i] ==> !fires(f)
      {
        assert fs[..i + 1] == fs[..i] + [fs[i]];
        if fires(fs[i]) {
          assert fs[i] in fs;
          return true;
        }
      }
      assert fs[..|fs|] == fs;
      return false;
    }

    static lemma AnyHit(fs: seq<Filter>, a: Attrs)
      ensures Hits(fs, On(a)) != [] <==> exists f :: f in fs && On(a)(f)
    {
      HitsMembers(fs, On(a));
      if f :| f in fs && On(a)(f) { assert f.entry in Hits(fs, On(a)); }
      if Hits(fs, On(a)) != [] { assert Hits(fs, On(a))[0] in Hits(fs, On(a)); }
    }

    /** Match answers with entries of the linear scan, each once: all of them, or as many as MaxMatches allows. */
    method Match(a: Attrs) returns (matched: seq<FilterEntry>, calls: seq<nat>)
      requires Valid()
      ensures var hits := Hits(order, On(a));
              && multiset(matched) <= multiset(hits)
              && |matched| == Capped(maxMatches, |hits|)
              && (Capped(maxMatches, |hits|) == |hits| ==> multiset(matched) == multiset(hits))
              && calls == LimitCalls(callback, maxMatches, |hits|)
      ensures DistinctEntries(matched)
    {
      var t := TypeOf(a);
      var bucket, globs, wild := Entries(t);
      var done := (st: MatchRun) => st.done;
      var st := Offer(MatchAdd(On(a), maxMatches, callback), done, MATCH_START, bucket, globs, wild, t);
      matched, calls := st.matched, st.calls;
      ghost var cands := Candidates(exact, globs, wild, t);
      MatchRunResult(cands, On(a), maxMatches, callback);
      SameHits(order, exact, globs, wild, a);
      PrefixOf(Firsts(cands, On(a)), Capped(maxMatches, |Hits(order, On(a))|), Hits(order, On(a)));
    }

    /** The three loops, over the bucket, the globs and the wildcard list. */
    static method Offer<S(!new)>(add: Adder<S>, done: S -> bool, start: S, bucket: seq<Filter>, globs: seq<GlobEntry>,
                                 wild: seq<Filter>, t: string)
      returns (st: S)
      requires Stops(add, done)
      ensures st == OfferAll(add, start, bucket + FiltersOf(Where(globs, GlobAccepts(t))) + wild)
    {
      st := OfferEach(add, done, start, bucket);
      var hits := GlobHits(globs, t);
      st := OfferEach(add, done, st, hits);
      st := OfferEach(add, done, st, wild);
      OfferAllConcat(add, start, bucket, hits);
      OfferAllConcat(add, start, bucket + hits, wild);
    }

    static lemma PrefixOf(all: seq<FilterEntry>, n: nat, hits: seq<FilterEntry>)
      requires multiset(all) == multiset(hits) && |all| == |hits| && n <= |all|
      ensures multiset(all[..n]) <= multiset(hits)
      ensures n == |hits| ==> multiset(all[..n]) == multiset(hits)
    {
      assert all == all[..n] + all[n..];
    }

    /** MatchEndpoints answers with distinct hints of the linear scan: all of them, or as many as MaxMatches allows. */
    method MatchEndpoints(a: Attrs) returns (endpoints: seq<string>, calls: seq<nat>)
      requires Valid()
      ensures EndpointsOf(order, On(a), maxMatches, endpoints)
      ensures calls == LimitCalls(callback, maxMatches, |HintSet(order, On(a))|)
    {
      var t := TypeOf(a);
      var bucket, globs, wild := Entries(t);
      var done := (st: EndpointRun) => st.done;
      var st := Offer(EndpointAdd(On(a), maxMatches, callback), done, ENDPOINT_START, bucket, globs, wild, t);
      endpoints, calls := st.endpoints, st.calls;
      CandidatesOnePerName(order, exact, globs, wild, t);
      EndpointRunResult(Candidates(exact, globs, wild, t), On(a), maxMatches, callback);
      SameHints(order, exact, globs, wild, a);
    }

    /** Stats: the total is the number of registered names. */
    method Stats() returns (s: IndexStats)
      requires Valid()
      ensures s.total == |names| == |order|
      ensures s.unconstrained == |Where(order, IsWild())|
      ensures s.globEntries == |GlobsOf(order)| && s.exactTypeBuckets == |exactIndex|
    {
      var seen := SeenInBuckets();
      var _, globs, wild := Entries("");
      seen := SeenInGlobs(globs, seen);
      SeenIsFiled(order, exact, globs, wild, seen);
      FiledAndWild(order);
      NamesCount(order);
      s := IndexStats(|seen| + |wild|, |exactIndex|, |globs|, |wild|);
    }

    static method SeenInGlobs(globs: seq<GlobEntry>, before: set<Filter>) returns (seen: set<Filter>)
      ensures seen == before + set ge | ge in globs :: ge.filter
    {
      seen := before;
      for i := 0 to |globs|
        invariant seen == before + set ge | ge in globs[..i] :: ge.filter
      {
        assert globs[..i + 1] == globs[..i] + [globs[i]];
        seen := seen + {globs[i].filter};
      }
      assert globs[..|globs|] == globs;
    }

    method SeenInBuckets() returns (seen: set<Filter>)
      requires Laid()
      ensures seen == set t, f | t in exact.Keys && f in exact[t] :: f
    {
      seen := {};
      var todo := exactIndex.Keys;
      assert todo == exact.Keys;
      while todo != {}
        invariant todo <= exact.Keys && exact.Keys == exactIndex.Keys
        invariant seen == set t, f | t in exact.Keys - todo && f in exact[t] :: f
        decreases todo
      {
        var k :| k in todo;
        var bucket, _, _ := Entries(k);
        seen := seen + set f | f in bucket;
        todo := todo - {k};
      }
      assert exact.Keys - todo == exact.Keys;
    }

    static lemma SeenIsFiled(fs: seq<Filter>, exact: map<string, seq<Filter>>, globs: seq<GlobEntry>, wild: seq<Filter>,
                             seen: set<Filter>)
      requires Indexes(fs, exact, globs, wild)
      requires seen == (set t, f | t in exact.Keys && f in exact[t] :: f) + (set ge | ge in globs :: ge.filter)
      ensures seen == Filed(fs)
    {
      forall f ensures f in seen <==> f in Filed(fs) {
        if f in fs {
          FiledInOnePlace(fs, exact, globs, wild, f);
          WhereMembers(fs, IsWild());
        }
        if t :| t in exact && f in exact[t] {
          assert Bucket(exact, t) == exact[t];
          IndexedIsRegistered(fs, exact, globs, wild, t, GlobEntry([], f));
        }
        if ge :| ge in globs && ge.filter == f { IndexedIsRegistered(fs, exact, globs, wild, "", ge); }
      }
    }
  }

  // ----- histories -----

  /**
   After every history of Adds and Removes, the index the history leaves answers as
   a scan of the name-to-filter map.
   */
  lemma {:induction false} EveryHistoryAnswers(cs: Charset, ops: seq<Op>, exact: map<string, seq<Filter>>,
                                               globs: seq<GlobEntry>, wild: seq<Filter>, a: Attrs, e: FilterEntry)
    requires Indexes(Replay(cs, ops), exact, globs, wild)
    ensures var m, all := ReplayMap(cs, ops), Firsts(Candidates(exact, globs, wild, TypeOf(a)), On(a));
            multiset(all)[e] == if e.name in m && m[e.name].entry == e && Filters.Match(m[e.name].pred, a) then 1 else 0
  {
    var fs, m := Replay(cs, ops), ReplayMap(cs, ops);
    var hits := Hits(fs, On(a));
    ReplayHolds(cs, ops);
    SameHits(fs, exact, globs, wild, a);
    HitsMembers(fs, On(a));
    HitsDistinct(fs, On(a));
    DistinctCount(hits, e);
    if e.name in m && m[e.name].entry == e && Filters.Match(m[e.name].pred, a) {
      assert m[e.name] in fs && On(a)(m[e.name]);
    }
  }

  lemma {:induction false} DistinctCount(es: seq<FilterEntry>, e: FilterEntry)
    requires DistinctEntries(es)
    ensures multiset(es)[e] == if e in es then 1 else 0
  {
    if es != [] {
      var init, last := es[..|es| - 1], es[|es| - 1];
      assert es == init + [last];
      DistinctCount(init, e);
    }
  }
}
