/** The inverted index of cloudevent/cefilter/index.go and its agreement with the linear scan. */
module FilterIndex {
  import opened Filters
  import opened TypeConstraints
  import opened Registry
  import Glob

  /** globIndexEntry. */
  datatype GlobEntry = GlobEntry(rx: Glob.Regexp, filter: Filter)

  // ----- where each filter is filed -----

  /** Filed under the exact type t. */
  function HasType(t: string): Test
  {
    (f: Filter) => t in Extract(f.pred).exact
  }

  /** Filed in the wildcard list: no constraint, or one that names no type and no glob. */
  function IsWild(): Test
  {
    (f: Filter) => var tc := Extract(f.pred); tc.unconstrained || (tc.exact == {} && tc.globs == [])
  }

  function GlobsFor(f: Filter): seq<GlobEntry>
  {
    var globs := Extract(f.pred).globs;
    seq(|globs|, i requires 0 <= i < |globs| => GlobEntry(globs[i], f))
  }

  function GlobsOf(fs: seq<Filter>): seq<GlobEntry>
  {
    if fs == [] then [] else GlobsOf(fs[..|fs| - 1]) + GlobsFor(fs[|fs| - 1])
  }

  /** exactIndex[t]: a missing key reads as the empty bucket. */
  function Bucket(exact: map<string, seq<Filter>>, t: string): seq<Filter>
  {
    if t in exact then exact[t] else []
  }

  ghost predicate NoEmptyBucket(exact: map<string, seq<Filter>>)
  {
    forall t :: t in exact ==> exact[t] != []
  }

  /** The three index structures are those of the list fs of registered filters. */
  ghost predicate Indexes(fs: seq<Filter>, exact: map<string, seq<Filter>>, globs: seq<GlobEntry>, wild: seq<Filter>)
  {
    && NoEmptyBucket(exact)
    && (forall t :: Bucket(exact, t) == Where(fs, HasType(t)))
    && globs == GlobsOf(fs)
    && wild == Where(fs, IsWild())
  }

  // ----- adding and removing on the structures -----

  /** r is exact with f appended to the buckets of the types outside todo. */
  ghost predicate Filing(exact: map<string, seq<Filter>>, r: map<string, seq<Filter>>, types: set<string>,
                         todo: set<string>, f: Filter)
  {
    && todo <= types && NoEmptyBucket(r)
    && forall t :: Bucket(r, t) == Bucket(exact, t) + (if t in types - todo then [f] else [])
  }

  lemma FilingStarts(exact: map<string, seq<Filter>>, types: set<string>, f: Filter)
    requires NoEmptyBucket(exact)
    ensures Filing(exact, exact, types, types, f)
  {
    forall t ensures Bucket(exact, t) == Bucket(exact, t) + (if t in types - types then [f] else []) {
      assert Bucket(exact, t) + [] == Bucket(exact, t);
    }
  }

  lemma FilingStep(exact: map<string, seq<Filter>>, r: map<string, seq<Filter>>, types: set<string>, todo: set<string>,
                   v: string, f: Filter)
    requires Filing(exact, r, types, todo, f) && v in todo
    ensures Filing(exact, r[v := Bucket(r, v) + [f]], types, todo - {v}, f)
  {
    var r' := r[v := Bucket(r, v) + [f]];
    assert Bucket(r, v) == Bucket(exact, v) + [] == Bucket(exact, v);
    forall t ensures Bucket(r', t) == Bucket(exact, t) + (if t in types - (todo - {v}) then [f] else []) {
      assert Bucket(r', t) == if t == v then Bucket(r, v) + [f] else Bucket(r, t);
    }
  }

  function OtherGlob(name: string): GlobEntry -> bool
  {
    (ge: GlobEntry) => ge.filter.entry.name != name
  }

  /** The buckets without the entries of a name, those outside todo being done, and without the buckets this empties. */
  function DroppedFrom(exact: map<string, seq<Filter>>, name: string, todo: set<string>): map<string, seq<Filter>>
  {
    map t | t in exact && (t in todo || KeepOthers(exact[t], name) != []) ::
      if t in todo then exact[t] else KeepOthers(exact[t], name)
  }

  lemma DroppedStep(exact: map<string, seq<Filter>>, name: string, todo: set<string>, k: string)
    requires k in todo && k in exact
    ensures var r, kept := DroppedFrom(exact, name, todo), KeepOthers(exact[k], name);
            && k in r && r[k] == exact[k]
            && DroppedFrom(exact, name, todo - {k}) == if kept == [] then r - {k} else r[k := kept]
  {
  }

  lemma DroppedBucket(exact: map<string, seq<Filter>>, name: string, t: string)
    ensures Bucket(DroppedFrom(exact, name, {}), t) == KeepOthers(Bucket(exact, t), name)
  {
  }

  lemma {:induction false} GlobsForOthers(ges: seq<GlobEntry>, f: Filter, name: string)
    requires forall ge :: ge in ges ==> ge.filter == f
    ensures Where(ges, OtherGlob(name)) == if f.entry.name != name then ges else []
  {
    if ges != [] {
      var init, last := ges[..|ges| - 1], ges[|ges| - 1];
      assert ges == init + [last];
      GlobsForOthers(init, f, name);
    }
  }

  /** Removing from the glob list is the glob list of what remains. */
  lemma {:induction false} GlobsOfOthers(fs: seq<Filter>, name: string)
    ensures Where(GlobsOf(fs), OtherGlob(name)) == GlobsOf(KeepOthers(fs, name))
  {
    if fs != [] {
      var init, last := fs[..|fs| - 1], fs[|fs| - 1];
      GlobsOfOthers(init, name);
      WhereConcat(GlobsOf(init), GlobsFor(last), OtherGlob(name));
      GlobsForOthers(GlobsFor(last), last, name);
      GlobsOfSnoc(KeepOthers(init, name), last);
      assert KeepOthers(init, name) + [] == KeepOthers(init, name);
      assert GlobsOf(KeepOthers(init, name)) + [] == GlobsOf(KeepOthers(init, name));
    }
  }

  lemma GlobsOfSnoc(fs: seq<Filter>, f: Filter)
    ensures GlobsOf(fs + [f]) == GlobsOf(fs) + GlobsFor(f)
  {
    assert (fs + [f])[..|fs|] == fs;
  }

  // ----- which filters an event is checked against -----

  /** The type of an event: an absent attribute reads as the empty string. */
  function TypeOf(a: Attrs): string
  {
    if "type" in a then a["type"] else ""
  }

  function GlobAccepts(t: string): GlobEntry -> bool
  {
    (ge: GlobEntry) => Glob.Accepts(ge.rx, t)
  }

  function FiltersOf(ges: seq<GlobEntry>): seq<Filter>
  {
    seq(|ges|, i requires 0 <= i < |ges| => ges[i].filter)
  }

  /** The filters offered for an event of type t, in the order of the three loops. */
  function Candidates(exact: map<string, seq<Filter>>, globs: seq<GlobEntry>, wild: seq<Filter>, t: string): seq<Filter>
  {
    Bucket(exact, t) + FiltersOf(Where(globs, GlobAccepts(t))) + wild
  }

  lemma {:induction false} GlobsOfMembers(fs: seq<Filter>, ge: GlobEntry)
    ensures ge in GlobsOf(fs) <==> ge.filter in fs && ge.rx in Extract(ge.filter.pred).globs
  {
    if fs != [] {
      var init, last := fs[..|fs| - 1], fs[|fs| - 1];
      GlobsOfMembers(init, ge);
      assert fs == init + [last];
      if ge.filter == last && ge.rx in Extract(last.pred).globs {
        var i :| 0 <= i < |Extract(last.pred).globs| && Extract(last.pred).globs[i] == ge.rx;
        assert GlobsFor(last)[i] == ge;
      }
    }
  }

  /** Only registered filters are offered. */
  lemma CandidatesAreRegistered(fs: seq<Filter>, exact: map<string, seq<Filter>>, globs: seq<GlobEntry>,
                                wild: seq<Filter>, t: string, f: Filter)
    requires Indexes(fs, exact, globs, wild) && f in Candidates(exact, globs, wild, t)
    ensures f in fs
  {
    assert Bucket(exact, t) == Where(fs, HasType(t));
    WhereMembers(fs, HasType(t));
    WhereMembers(fs, IsWild());
    WhereMembers(globs, GlobAccepts(t));
    var hits := Where(globs, GlobAccepts(t));
    if f in FiltersOf(hits) {
      var i :| 0 <= i < |hits| && hits[i].filter == f;
      GlobsOfMembers(fs, hits[i]);
    }
  }

  lemma EntryIsOffered(globs: seq<GlobEntry>, t: string, ge: GlobEntry)
    requires ge in globs && Glob.Accepts(ge.rx, t)
    ensures ge.filter in FiltersOf(Where(globs, GlobAccepts(t)))
  {
    WhereMembers(globs, GlobAccepts(t));
    var hits := Where(globs, GlobAccepts(t));
    var j :| 0 <= j < |hits| && hits[j] == ge;
    assert FiltersOf(hits)[j] == ge.filter;
  }

  lemma {:induction false} GlobIsOffered(fs: seq<Filter>, globs: seq<GlobEntry>, t: string, f: Filter)
    requires globs == GlobsOf(fs) && f in fs && MatchesSome(Extract(f.pred).globs, t)
    ensures f in FiltersOf(Where(globs, GlobAccepts(t)))
  {
    var rxs := Extract(f.pred).globs;
    var i :| 0 <= i < |rxs| && Glob.Accepts(rxs[i], t);
    GlobsOfMembers(fs, GlobEntry(rxs[i], f));
    EntryIsOffered(globs, t, GlobEntry(rxs[i], f));
  }

  /** Every registered filter that matches is offered: the index loses nothing. */
  lemma MatchingIsOffered(fs: seq<Filter>, exact: map<string, seq<Filter>>, globs: seq<GlobEntry>, wild: seq<Filter>,
                          a: Attrs, f: Filter)
    requires Indexes(fs, exact, globs, wild) && f in fs && Match(f.pred, a)
    ensures f in Candidates(exact, globs, wild, TypeOf(a))
  {
    var tc, t := Extract(f.pred), TypeOf(a);
    if IsWild()(f) {
      WhereMembers(fs, IsWild());
    } else {
      ConstraintIsSound(f.pred, a);
      if t in tc.exact {
        assert HasType(t)(f) && Bucket(exact, t) == Where(fs, HasType(t));
        WhereMembers(fs, HasType(t));
      } else {
        GlobIsOffered(fs, globs, t, f);
      }
    }
  }

  // ----- the shape of the index -----

  /** A registered filter is in the wildcard list, and then in no other structure, or in the others only. */
  lemma FiledInOnePlace(fs: seq<Filter>, exact: map<string, seq<Filter>>, globs: seq<GlobEntry>, wild: seq<Filter>,
                        f: Filter)
    requires Indexes(fs, exact, globs, wild) && f in fs
    ensures f in wild <==> (forall t :: f !in Bucket(exact, t)) && (forall ge :: ge in globs ==> ge.filter != f)
  {
    var tc := Extract(f.pred);
    WhereMembers(fs, IsWild());
    UnconstrainedIsBare(f.pred);
    if f in wild {
      forall t ensures f !in Bucket(exact, t) {
        assert Bucket(exact, t) == Where(fs, HasType(t));
        WhereMembers(fs, HasType(t));
      }
      forall ge | ge in globs ensures ge.filter != f { GlobsOfMembers(fs, ge); }
    } else if tc.exact != {} {
      var t :| t in tc.exact;
      assert HasType(t)(f) && Bucket(exact, t) == Where(fs, HasType(t));
      WhereMembers(fs, HasType(t));
    } else {
      GlobsOfMembers(fs, GlobEntry(tc.globs[0], f));
    }
  }

  /** The wildcard list and each bucket hold a filter at most once. */
  lemma {:induction false} BucketsHaveNoRepeats(fs: seq<Filter>, exact: map<string, seq<Filter>>, globs: seq<GlobEntry>,
                                                wild: seq<Filter>, t: string)
    requires Indexes(fs, exact, globs, wild) && DistinctNames(fs)
    ensures DistinctNames(wild) && DistinctNames(Bucket(exact, t))
  {
    WhereDistinct(fs, IsWild());
    assert Bucket(exact, t) == Where(fs, HasType(t));
    WhereDistinct(fs, HasType(t));
  }

  /** Every indexed filter is registered. */
  lemma IndexedIsRegistered(fs: seq<Filter>, exact: map<string, seq<Filter>>, globs: seq<GlobEntry>, wild: seq<Filter>,
                            t: string, ge: GlobEntry)
    requires Indexes(fs, exact, globs, wild)
    ensures forall f :: f in Bucket(exact, t) || f in wild ==> f in fs
    ensures ge in globs ==> ge.filter in fs
  {
    assert Bucket(exact, t) == Where(fs, HasType(t));
    WhereMembers(fs, HasType(t));
    WhereMembers(fs, IsWild());
    GlobsOfMembers(fs, ge);
  }

  /** The filters that are filed under a type or a glob. */
  function Filed(fs: seq<Filter>): set<Filter>
  {
    set f | f in fs && !IsWild()(f)
  }

  lemma FiledSnoc(init: seq<Filter>, last: Filter)
    requires last !in init
    ensures Filed(init + [last]) == (if IsWild()(last) then Filed(init) else Filed(init) + {last})
    ensures last !in Filed(init)
  {
    assert forall f :: f in init + [last] <==> f in init || f == last;
  }

  /** The filters outside the wildcard list and the wildcard list add up to all. */
  lemma {:induction false} FiledAndWild(fs: seq<Filter>)
    requires DistinctNames(fs)
    ensures |Filed(fs)| + |Where(fs, IsWild())| == |fs|
  {
    if fs != [] {
      var init, last := fs[..|fs| - 1], fs[|fs| - 1];
      FiledAndWild(init);
      assert fs == init + [last];
      FiledSnoc(init, last);
    }
  }

  lemma {:induction false} NamesCount(fs: seq<Filter>)
    requires DistinctNames(fs)
    ensures |NamesOf(fs)| == |fs|
  {
    if fs != [] {
      var init, last := fs[..|fs| - 1], fs[|fs| - 1];
      NamesCount(init);
      assert NamesOf(fs) == NamesOf(init) + {last.entry.name};
      assert last.entry.name !in NamesOf(init);
    }
  }
}
