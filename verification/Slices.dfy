/** Go slices: a length over a backing array, with append and in-place filtering. */
module Slices {
  import opened Registry

  datatype Slice<!T> = Slice(arr: array<T>, len: nat)
  {
    ghost predicate Fits()
    {
      len <= arr.Length
    }

    ghost function View(): seq<T>
      reads arr
    {
      if len <= arr.Length then arr[..len] else []
    }
  }

  /** The nil slice. */
  method Empty<T>() returns (s: Slice<T>)
    ensures fresh(s.arr) && s.Fits() && s.View() == []
  {
    var a := new T[0];
    s := Slice(a, 0);
  }

  /** append: in place while there is room, else into a larger array. */
  method Append<T>(s: Slice<T>, x: T) returns (r: Slice<T>)
    requires s.Fits()
    modifies s.arr
    ensures r.Fits() && (r.arr == s.arr || fresh(r.arr))
    ensures r.View() == old(s.View()) + [x]
  {
    var arr := s.arr;
    if s.len == arr.Length {
      arr := new T[2 * s.len + 1](_ => x);
      forall i | 0 <= i < s.len { arr[i] := s.arr[i]; }
    }
    arr[s.len] := x;
    r := Slice(arr, s.len + 1);
  }

  /** Filters a slice over the array being read: what passes is moved to the front. */
  method Compact<T>(s: Slice<T>, keep: T -> bool) returns (r: Slice<T>)
    requires s.Fits()
    modifies s.arr
    ensures r.arr == s.arr && r.len <= s.len && r.View() == Where(old(s.View()), keep)
    ensures forall i :: s.len <= i < s.arr.Length ==> s.arr[i] == old(s.arr[i])
  {
    var a, k := s.arr, 0;
    for i := 0 to s.len
      invariant k <= i
      invariant a[..k] == Where(old(a[..i]), keep)
      invariant forall j :: i <= j < a.Length ==> a[j] == old(a[j])
    {
      ghost var before := a[..k];
      WhereSnoc(old(a[..i]), old(a[i]), keep);
      assert old(a[..i + 1]) == old(a[..i]) + [old(a[i])];
      if keep(a[i]) {
        a[k] := a[i];
        k := k + 1;
        assert a[..k] == before + [old(a[i])];
      }
    }
    r := Slice(a, k);
  }

  // ----- a map of slices -----

  /** Every slice fits its array, and no two share one. */
  ghost predicate Separate<K, T>(m: map<K, Slice<T>>)
  {
    && (forall k :: k in m ==> m[k].Fits())
    && (forall j, k :: j in m && k in m && j != k ==> m[j].arr != m[k].arr)
  }

  /** The slices left in r are over the arrays they had in m. */
  ghost predicate InPlace<K, T>(m: map<K, Slice<T>>, r: map<K, Slice<T>>)
  {
    forall k :: k in r ==> k in m && r[k].arr == m[k].arr
  }

  ghost function Arrays<K, T>(m: map<K, Slice<T>>): set<array<T>>
  {
    set k | k in m :: m[k].arr
  }

  /** What each slice shows. */
  ghost predicate Shows<K, T>(m: map<K, Slice<T>>, view: map<K, seq<T>>)
    reads Arrays(m)
  {
    m.Keys == view.Keys && forall k :: k in m ==> m[k].View() == view[k]
  }
}
