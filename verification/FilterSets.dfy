/** The linear filter set of cloudevent/cefilter/accessor.go, on its backing array. */
module FilterSets {
  import opened Charset
  import opened Filters
  import opened Registry
  import opened Slices
  import Parsing

  method ScanAny(fs: seq<Filter>, fires: Test) returns (r: bool)
    ensures r <==> Hits(fs, fires) != []
  {
    for i := 0 to |fs|
      invariant Hits(fs[..i], fires) == []
    {
      HitsSnoc(fs, i, fires);
      if fires(fs[i]) {
        HitsPrefix(fs, i + 1, fires);
        return true;
      }
    }
    assert fs[..|fs|] == fs;
    return false;
  }

  /** The first hits, as many as the cap allows, and the calls of the limit callback. */
  method Scan(fs: seq<Filter>, fires: Test, max: int, callback: bool)
    returns (matched: seq<FilterEntry>, calls: seq<nat>)
    ensures var hits := Hits(fs, fires);
            && matched == hits[..Capped(max, |hits|)]
            && calls == LimitCalls(callback, max, |hits|)
  {
    matched, calls := [], [];
    for i := 0 to |fs|
      invariant matched == Hits(fs[..i], fires) && calls == []
      invariant max > 0 ==> |matched| < max
    {
      HitsSnoc(fs, i, fires);
      if fires(fs[i]) {
        matched := matched + [fs[i].entry];
        if max > 0 && |matched| >= max {
          if callback { calls := [|matched|]; }
          HitsPrefix(fs, i + 1, fires);
          return;
        }
      }
    }
    assert fs[..|fs|] == fs;
  }

  lemma HitsSnoc(fs: seq<Filter>, i: nat, fires: Test)
    requires i < |fs|
    ensures Hits(fs[..i + 1], fires) == Hits(fs[..i], fires) + (if fires(fs[i]) then [fs[i].entry] else [])
  {
    assert fs[..i + 1][..i] == fs[..i];
  }

  lemma {:induction false} HitsPrefix(fs: seq<Filter>, n: nat, fires: Test)
    requires n <= |fs|
    ensures Hits(fs[..n], fires) <= Hits(fs, fires)
  {
    if n < |fs| {
      var init := fs[..|fs| - 1];
      HitsPrefix(init, n, fires);
      assert init[..n] == fs[..n];
    } else {
      assert fs[..n] == fs;
    }
  }

  /** Distinct non-empty hints of matching filters; all of them unless the cap stops the scan. */
  method ScanEndpoints(fs: seq<Filter>, fires: Test, max: int, callback: bool)
    returns (endpoints: seq<string>, calls: seq<nat>)
    ensures EndpointsOf(fs, fires, max, endpoints)
    ensures calls == LimitCalls(callback, max, |HintSet(fs, fires)|)
  {
    endpoints, calls := [], [];
    var seen := {};
    for i := 0 to |fs|
      invariant seen == HintSet(fs[..i], fires)
      invariant Lists(endpoints, seen) && |endpoints| == |seen| && calls == []
      invariant max > 0 ==> |endpoints| < max
    {
      var hint := fs[i].entry.hint;
      EndpointStep(fs, i, fires, endpoints, seen);
      if fires(fs[i]) && hint != "" && hint !in seen {
        seen := seen + {hint};
        endpoints := endpoints + [hint];
        if max > 0 && |endpoints| >= max {
          EndpointsAtCap(fs, i + 1, fires, max, endpoints);
          calls := if callback then [|endpoints|] else [];
          return;
        }
      }
    }
    assert fs[..|fs|] == fs;
    EndpointsBelowCap(fs, fires, max, endpoints);
  }

  /** A filter that fires with a new, non-empty hint adds it; any other changes nothing. */
  lemma {:induction false} EndpointStep(fs: seq<Filter>, i: nat, fires: Test, endpoints: seq<string>, seen: set<string>)
    requires i < |fs| && seen == HintSet(fs[..i], fires) && Lists(endpoints, seen) && |endpoints| == |seen|
    ensures var hint := fs[i].entry.hint;
            if fires(fs[i]) && hint != "" && hint !in seen then
              && seen + {hint} == HintSet(fs[..i + 1], fires)
              && Lists(endpoints + [hint], seen + {hint}) && |endpoints + [hint]| == |seen + {hint}|
            else seen == HintSet(fs[..i + 1], fires)
  {
    HintSnoc(fs, i, fires);
    if fs[i].entry.hint !in seen { ListsSnoc(endpoints, seen, fs[i].entry.hint); }
  }

  lemma EndpointsBelowCap(fs: seq<Filter>, fires: Test, max: int, endpoints: seq<string>)
    requires Lists(endpoints, HintSet(fs, fires)) && (max > 0 ==> |HintSet(fs, fires)| < max)
    ensures EndpointsOf(fs, fires, max, endpoints)
  {
    assert HintSet(fs, fires) <= HintSet(fs, fires);
  }

  lemma {:induction false} EndpointsAtCap(fs: seq<Filter>, n: nat, fires: Test, max: int, endpoints: seq<string>)
    requires n <= |fs| && Lists(endpoints, HintSet(fs[..n], fires)) && |HintSet(fs[..n], fires)| == max > 0
    ensures EndpointsOf(fs, fires, max, endpoints) && max <= |HintSet(fs, fires)|
  {
    HintPrefix(fs, n, fires);
    SubsetSize(HintSet(fs[..n], fires), HintSet(fs, fires));
  }

  class FilterSet {
    const cs: Charset
    var maxMatches: int
    var callback: bool
    var filters: Slice<Filter>

    ghost predicate Valid()
      reads this
    {
      filters.Fits()
    }

    ghost function Contents(): seq<Filter>
      reads this, filters.arr
    {
      filters.View()
    }

    constructor (cs: Charset)
      ensures Valid() && fresh(filters.arr) && this.cs == cs && Contents() == [] && maxMatches == 0 && !callback
    {
      this.cs := cs;
      maxMatches, callback := 0, false;
      var none := Empty();
      filters := none;
    }

    /** Appends; a name already present stays too. */
    method Add(entry: FilterEntry, expr: string) returns (ok: bool)
      requires Valid()
      modifies this, filters.arr
      ensures Valid() && (filters.arr == old(filters.arr) || fresh(filters.arr))
      ensures maxMatches == old(maxMatches) && callback == old(callback)
      ensures ok <==> Parsing.Parse(cs, expr).Some?
      ensures Contents() == old(Contents()) + (if ok then [Filter(entry, Parsing.Parse(cs, expr).value)] else [])
    {
      var p := Parsing.ParseExpression(cs, expr);
      ok := p.Some?;
      if ok { filters := Append(filters, Filter(entry, p.value)); }
    }

    /** Keeps exactly the filters of other names, in order, in the same array. */
    method Remove(name: string)
      requires Valid()
      modifies this, filters.arr
      ensures Valid() && filters.arr == old(filters.arr)
      ensures maxMatches == old(maxMatches) && callback == old(callback)
      ensures Contents() == KeepOthers(old(Contents()), name)
    {
      filters := Compact(filters, Other(name));
    }

    method MatchAny(a: Attrs) returns (r: bool)
      requires Valid()
      ensures r <==> Hits(Contents(), On(a)) != []
    {
      r := ScanAny(filters.arr[..filters.len], On(a));
    }

    method Match(a: Attrs) returns (matched: seq<FilterEntry>, calls: seq<nat>)
      requires Valid()
      ensures var hits := Hits(Contents(), On(a));
              && matched == hits[..Capped(maxMatches, |hits|)]
              && calls == LimitCalls(callback, maxMatches, |hits|)
    {
      matched, calls := Scan(filters.arr[..filters.len], On(a), maxMatches, callback);
    }

    method MatchEndpoints(a: Attrs) returns (endpoints: seq<string>, calls: seq<nat>)
      requires Valid()
      ensures EndpointsOf(Contents(), On(a), maxMatches, endpoints)
      ensures calls == LimitCalls(callback, maxMatches, |HintSet(Contents(), On(a))|)
    {
      endpoints, calls := ScanEndpoints(filters.arr[..filters.len], On(a), maxMatches, callback);
    }
  }
}
