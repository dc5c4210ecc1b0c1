/** The buckets of the index of cloudevent/cefilter/index.go, each a slice over its own array. */
module Buckets {
  import opened TypeConstraints
  import opened Registry
  import opened Slices
  import opened FilterIndex

  /** The bucket of v with f appended; a missing bucket is the nil slice. */
  method AppendTo(m: map<string, Slice<Filter>>, ghost exact: map<string, seq<Filter>>, v: string, f: Filter)
    returns (r: map<string, Slice<Filter>>)
    requires Separate(m) && Shows(m, exact)
    modifies Arrays(m)
    ensures Separate(r) && fresh(Arrays(r) - Arrays(m)) && Shows(r, exact[v := Bucket(exact, v) + [f]])
  {
    var s;
    if v in m { s := m[v]; } else { s := Empty(); }
    s := Append(s, f);
    r := m[v := s];
  }

  /** Appends the filter to the bucket of each of its exact types. */
  method FileExact(m: map<string, Slice<Filter>>, ghost exact: map<string, seq<Filter>>, types: set<string>, f: Filter)
    returns (r: map<string, Slice<Filter>>, ghost filed: map<string, seq<Filter>>)
    requires Separate(m) && Shows(m, exact) && NoEmptyBucket(exact)
    modifies Arrays(m)
    ensures Separate(r) && fresh(Arrays(r) - Arrays(m)) && Shows(r, filed) && Filing(exact, filed, types, {}, f)
  {
    r, filed := m, exact;
    var todo := types;
    FilingStarts(exact, types, f);
    while todo != {}
      invariant Separate(r) && fresh(Arrays(r) - Arrays(m)) && Shows(r, filed) && Filing(exact, filed, types, todo, f)
      decreases todo
    {
      var v :| v in todo;
      FilingStep(exact, filed, types, todo, v, f);
      r := AppendTo(r, filed, v, f);
      filed := filed[v := Bucket(filed, v) + [f]];
      todo := todo - {v};
    }
  }

  /** Appends one glob entry for each glob of the filter. */
  method FileGlobs(globs: Slice<GlobEntry>, f: Filter) returns (r: Slice<GlobEntry>)
    requires globs.Fits()
    modifies globs.arr
    ensures r.Fits() && (r.arr == globs.arr || fresh(r.arr))
    ensures r.View() == old(globs.View()) + GlobsFor(f)
  {
    r := globs;
    var rxs := Extract(f.pred).globs;
    for i := 0 to |rxs|
      invariant r.Fits() && (r.arr == globs.arr || fresh(r.arr))
      invariant r.View() == old(globs.View()) + GlobsFor(f)[..i]
    {
      assert GlobsFor(f)[..i + 1] == GlobsFor(f)[..i] + [GlobsFor(f)[i]];
      r := Append(r, GlobEntry(rxs[i], f));
    }
    assert GlobsFor(f)[..|rxs|] == GlobsFor(f);
  }

  /** One bucket compacted in its array; the others are as they were. */
  method DropFromBucket(m: map<string, Slice<Filter>>, ghost exact: map<string, seq<Filter>>, k: string, name: string)
    returns (r: map<string, Slice<Filter>>)
    requires Separate(m) && Shows(m, exact) && k in m
    modifies m[k].arr
    ensures Separate(r) && InPlace(m, r)
    ensures var kept := KeepOthers(exact[k], name); Shows(r, if kept == [] then exact - {k} else exact[k := kept])
  {
    var kept := Compact(m[k], Other(name));
    r := if kept.len == 0 then m - {k} else m[k := kept];
  }

  /** The loop over exactIndex in removeLocked: every bucket is compacted in its own array. */
  method DropFromBuckets(m: map<string, Slice<Filter>>, ghost exact: map<string, seq<Filter>>, name: string)
    returns (r: map<string, Slice<Filter>>)
    requires Separate(m) && Shows(m, exact)
    modifies Arrays(m)
    ensures Separate(r) && InPlace(m, r) && Shows(r, DroppedFrom(exact, name, {}))
  {
    r := m;
    var todo := m.Keys;
    assert DroppedFrom(exact, name, todo) == exact;
    while todo != {}
      invariant Separate(r) && InPlace(m, r) && todo <= exact.Keys && Shows(r, DroppedFrom(exact, name, todo))
      decreases todo
    {
      var k :| k in todo;
      DroppedStep(exact, name, todo, k);
      r := DropFromBucket(r, DroppedFrom(exact, name, todo), k, name);
      todo := todo - {k};
    }
  }
}
