/**
 The recursive map merge of utils/replace_merge_map.go: a source document is
 merged into a target, the source's values winning, down to a fixed depth.
 */
module DeepMerge {
  import opened Wrappers

  const MAX_DEPTH: nat := 32

  /** A string-keyed map, or anything else. */
  datatype Value = Leaf(value: int) | Obj(fields: map<string, Value>)

  type Fields = map<string, Value>

  // ----- the result -----

  function MergeValues(d: Value, s: Value): Value
    decreases s
  {
    if d.Obj? && s.Obj? then
      Obj(map k | k in d.fields.Keys + s.fields.Keys ::
            if k !in s.fields then d.fields[k]
            else if k !in d.fields then s.fields[k]
            else MergeValues(d.fields[k], s.fields[k]))
    else s
  }

  function Merge(d: Fields, s: Fields): Fields
  {
    MergeValues(Obj(d), Obj(s)).fields
  }

  /** Whether merging recurses at most n levels below these two values. */
  predicate Within(d: Value, s: Value, n: nat)
    decreases s
  {
    d.Obj? && s.Obj? ==>
      forall k | k in d.fields && k in s.fields && d.fields[k].Obj? && s.fields[k].Obj? ::
        n > 0 && Within(d.fields[k], s.fields[k], n - 1)
  }

  // ----- meaning, path by path -----

  /** The value reached by following the keys of path. */
  function At(v: Value, path: seq<string>): Option<Value>
    decreases |path|
  {
    if path == [] then Some(v)
    else if v.Obj? && path[0] in v.fields then At(v.fields[path[0]], path[1..])
    else None
  }

  predicate IsObj(v: Option<Value>)
  {
    v.Some? && v.value.Obj?
  }

  /** v decides what is found at path: it has a value there, or a leaf on the way. */
  predicate Decides(v: Value, path: seq<string>)
    decreases |path|
  {
    v.Leaf? || path == [] || (path[0] in v.fields && Decides(v.fields[path[0]], path[1..]))
  }

  /**
   A leaf is found in the merge exactly where the source has it, or the target does
   and the source does not decide.
   */
  lemma {:induction false} MergedLeaf(d: Value, s: Value, path: seq<string>, x: int)
    requires d.Obj? && s.Obj? && path != []
    ensures At(MergeValues(d, s), path) == Some(Leaf(x))
       <==> At(s, path) == Some(Leaf(x)) || (At(d, path) == Some(Leaf(x)) && !Decides(s, path))
    decreases |path|
  {
    var k := path[0];
    if k in d.fields && k in s.fields && d.fields[k].Obj? && s.fields[k].Obj? && path[1..] != [] {
      MergedLeaf(d.fields[k], s.fields[k], path[1..], x);
    }
  }

  /**
   An object is found in the merge exactly where the source has one, or the target
   does and the source does not decide.
   */
  lemma {:induction false} MergedObject(d: Value, s: Value, path: seq<string>)
    requires d.Obj? && s.Obj?
    ensures IsObj(At(MergeValues(d, s), path))
       <==> IsObj(At(s, path)) || (IsObj(At(d, path)) && !Decides(s, path))
    decreases |path|
  {
    if path != [] {
      var k := path[0];
      if k in d.fields && k in s.fields && d.fields[k].Obj? && s.fields[k].Obj? {
        MergedObject(d.fields[k], s.fields[k], path[1..]);
      }
    }
  }

  /** What can be seen at a path: nothing, an object, or a leaf. */
  function Shows(v: Value, path: seq<string>): Option<Option<int>>
  {
    match At(v, path)
    case None => None
    case Some(Obj(_)) => Some(None)
    case Some(Leaf(x)) => Some(Some(x))
  }

  lemma FieldShows(v: Value, k: string)
    requires v.Obj?
    ensures k in v.fields <==> Shows(v, [k]).Some?
  {
    assert k in v.fields ==> At(v, [k]) == At(v.fields[k], []);
  }

  /** A value is determined by what its paths show, so MergedLeaf and MergedObject leave one possible merge. */
  lemma {:induction false} PathsDetermine(a: Value, b: Value)
    requires forall path :: Shows(a, path) == Shows(b, path)
    ensures a == b
    decreases a
  {
    assert Shows(a, []) == Shows(b, []);
    if a.Obj? {
      forall k ensures k in a.fields <==> k in b.fields {
        assert Shows(a, [k]) == Shows(b, [k]);
        FieldShows(a, k);
        FieldShows(b, k);
      }
      forall k | k in a.fields ensures a.fields[k] == b.fields[k] {
        forall path ensures Shows(a.fields[k], path) == Shows(b.fields[k], path) {
          assert ([k] + path)[1..] == path;
          assert Shows(a, [k] + path) == Shows(b, [k] + path);
        }
        PathsDetermine(a.fields[k], b.fields[k]);
      }
      assert a.fields == b.fields;
    }
  }

  // ----- the depth limit -----

  /** No path of more than n keys leads to objects in both values. */
  ghost predicate Shallow(d: Value, s: Value, n: nat)
  {
    forall path: seq<string> | |path| == n + 1 :: !(IsObj(At(d, path)) && IsObj(At(s, path)))
  }

  /** Recursing at most n levels is a statement about paths. */
  lemma {:induction false} WithinIff(d: Value, s: Value, n: nat)
    requires d.Obj? && s.Obj?
    ensures Within(d, s, n) <==> Shallow(d, s, n)
    decreases n
  {
    if Within(d, s, n) {
      forall path: seq<string> | |path| == n + 1 ensures !(IsObj(At(d, path)) && IsObj(At(s, path))) {
        WithinPath(d, s, n, path);
      }
    } else {
      var path := DeepPath(d, s, n);
    }
  }

  lemma {:induction false} WithinPath(d: Value, s: Value, n: nat, path: seq<string>)
    requires Within(d, s, n) && |path| == n + 1
    ensures !(IsObj(At(d, path)) && IsObj(At(s, path)))
    decreases n
  {
    if IsObj(At(d, path)) && IsObj(At(s, path)) {
      var k := path[0];
      PrefixIsObject(d.fields[k], path[1..]);
      PrefixIsObject(s.fields[k], path[1..]);
      WithinPath(d.fields[k], s.fields[k], n - 1, path[1..]);
    }
  }

  lemma PrefixIsObject(v: Value, path: seq<string>)
    requires IsObj(At(v, path))
    ensures v.Obj?
  {
  }

  /** A path of n + 1 keys to objects in both. */
  lemma {:induction false} DeepPath(d: Value, s: Value, n: nat) returns (path: seq<string>)
    requires d.Obj? && s.Obj? && !Within(d, s, n)
    ensures |path| == n + 1 && IsObj(At(d, path)) && IsObj(At(s, path))
    decreases n
  {
    var k :| k in d.fields && k in s.fields && d.fields[k].Obj? && s.fields[k].Obj?
          && !(n > 0 && Within(d.fields[k], s.fields[k], n - 1));
    if n == 0 {
      path := [k];
    } else {
      var rest := DeepPath(d.fields[k], s.fields[k], n - 1);
      path := [k] + rest;
      assert path[1..] == rest;
    }
  }

  // ----- merging again -----

  lemma {:induction false} Idempotent(d: Value, s: Value)
    ensures MergeValues(MergeValues(d, s), s) == MergeValues(d, s)
    decreases s
  {
    var m := MergeValues(d, s);
    if s.Obj? {
      assert m.Obj?;
      forall k | k in s.fields ensures MergeValues(m.fields[k], s.fields[k]) == m.fields[k] {
        if d.Obj? && k in d.fields {
          Idempotent(d.fields[k], s.fields[k]);
        } else {
          MergeSelf(s.fields[k]);
        }
      }
      assert MergeValues(m, s).fields == m.fields;
    }
  }

  lemma {:induction false} MergeSelf(s: Value)
    ensures MergeValues(s, s) == s
    decreases s
  {
    if s.Obj? {
      forall k | k in s.fields ensures MergeValues(s.fields[k], s.fields[k]) == s.fields[k] {
        MergeSelf(s.fields[k]);
      }
      assert MergeValues(s, s).fields == s.fields;
    }
  }

  /** Merging the same source a second time stays within the limit exactly when the source alone is that shallow. */
  lemma SecondMergeIff(d: Value, s: Value, n: nat)
    requires d.Obj? && s.Obj?
    ensures Within(MergeValues(d, s), s, n) <==> Shallow(s, s, n)
  {
    var m := MergeValues(d, s);
    WithinIff(m, s, n);
    forall path: seq<string> | |path| == n + 1 ensures IsObj(At(s, path)) ==> IsObj(At(m, path)) {
      MergedObject(d, s, path);
    }
  }

  /** Nesting of n objects below the outermost. */
  function Nest(n: nat): Value
  {
    Obj(if n == 0 then map[] else map["k" := Nest(n - 1)])
  }

  lemma {:induction false} NestWithinIff(n: nat, limit: nat)
    ensures Within(Nest(n), Nest(n), limit) <==> n <= limit
  {
    if n > 0 {
      if limit > 0 { NestWithinIff(n - 1, limit - 1); }
      assert "k" in Nest(n).fields && Nest(n).fields["k"].Obj?;
    }
  }

  /** A merge that succeeds into an empty document can exceed the limit when repeated. */
  lemma RepeatedMergeCanFail()
    ensures Within(Obj(map[]), Nest(MAX_DEPTH + 1), MAX_DEPTH)
    ensures MergeValues(Obj(map[]), Nest(MAX_DEPTH + 1)) == Nest(MAX_DEPTH + 1)
    ensures !Within(Nest(MAX_DEPTH + 1), Nest(MAX_DEPTH + 1), MAX_DEPTH)
  {
    var s := Nest(MAX_DEPTH + 1);
    NestWithinIff(MAX_DEPTH + 1, MAX_DEPTH);
    assert MergeValues(Obj(map[]), s).fields == s.fields;
  }

  // ----- the operation -----

  /** A map that is updated in place. */
  class Document {
    var fields: Fields

    constructor ()
      ensures fields == map[]
    {
      fields := map[];
    }

    /** A copy of a map value, built entry by entry; nothing for any other value. */
    static method Mapify(v: Value) returns (copy: Document?)
      ensures copy == null <==> v.Leaf?
      ensures copy != null ==> fresh(copy) && copy.fields == v.fields
    {
      if v.Leaf? { return null; }
      copy := new Document();
      var keys := v.fields.Keys;
      while keys != {}
        invariant keys <= v.fields.Keys
        invariant copy.fields == map k | k in v.fields.Keys - keys :: v.fields[k]
        invariant fresh(copy)
        decreases |keys|
      {
        var k :| k in keys;
        copy.fields := copy.fields[k := v.fields[k]];
        keys := keys - {k};
      }
      assert v.fields.Keys - keys == v.fields.Keys;
    }
  }

  /** One key's contribution to the result. */
  function MergedField(d: Fields, s: Fields, k: string): Value
    requires k in s
  {
    if k in d then MergeValues(d[k], s[k]) else s[k]
  }

  /** One key's contribution to the depth limit. */
  predicate FieldWithin(d: Fields, s: Fields, k: string, n: nat)
    requires k in s
  {
    k in d && d[k].Obj? && s[k].Obj? ==> n > 0 && Within(d[k], s[k], n - 1)
  }

  /** The fields once all of s's keys but the remaining have been merged. */
  function Partly(d: Fields, s: Fields, remaining: set<string>): Fields
  {
    map k | k in d.Keys + (s.Keys - remaining) :: if k in s && k !in remaining then MergedField(d, s, k) else d[k]
  }

  ghost predicate PartlyMerged(now: Fields, d: Fields, s: Fields)
  {
    exists remaining :: now == Partly(d, s, remaining)
  }

  /** What holds with those keys remaining: the others are merged, and none went too deep. */
  ghost predicate Merging(now: Fields, d: Fields, s: Fields, remaining: set<string>, n: nat)
  {
    && now == Partly(d, s, remaining)
    && forall k | k in s && k !in remaining :: FieldWithin(d, s, k, n)
  }

  lemma MergingStarts(d: Fields, s: Fields, n: nat)
    ensures Merging(d, d, s, s.Keys, n) && PartlyMerged(d, d, s)
  {
    assert Partly(d, s, s.Keys) == d;
  }

  lemma MergingStep(now: Fields, d: Fields, s: Fields, remaining: set<string>, n: nat, k: string)
    requires Merging(now, d, s, remaining, n) && k in s && k in remaining
    ensures FieldWithin(now, s, k, n) == FieldWithin(d, s, k, n)
    ensures FieldWithin(d, s, k, n) ==> Merging(now[k := MergedField(now, s, k)], d, s, remaining - {k}, n)
    ensures !FieldWithin(d, s, k, n) ==> !Within(Obj(d), Obj(s), n) && PartlyMerged(now, d, s)
  {
    assert now[k := MergedField(now, s, k)] == Partly(d, s, remaining - {k});
  }

  lemma MergingEnds(now: Fields, d: Fields, s: Fields, n: nat)
    requires Merging(now, d, s, {}, n)
    ensures Within(Obj(d), Obj(s), n) && now == Merge(d, s)
  {
  }

  /**
   Merges src into dst, visiting src's keys in any order. It succeeds, with the
   merged fields, exactly within the depth limit; a failure leaves some of src's
   keys merged and everything else as it was.
   */
  method ReplaceOnlyMergeMap(dst: Document?, src: Fields, depth: nat) returns (ok: bool)
    requires depth <= MAX_DEPTH + 1
    modifies dst
    ensures ok <==> dst != null && depth <= MAX_DEPTH && Within(Obj(old(dst.fields)), Obj(src), MAX_DEPTH - depth)
    ensures ok ==> dst.fields == Merge(old(dst.fields), src)
    ensures !ok && dst != null ==> PartlyMerged(dst.fields, old(dst.fields), src)
    decreases MAX_DEPTH + 1 - depth, 2
  {
    if depth > MAX_DEPTH {
      if dst != null { MergingStarts(dst.fields, src, 0); }
      return false;
    }
    if dst == null { return false; }
    ok := MergeFields(dst, src, depth);
  }

  /** The loop over src. */
  method MergeFields(dst: Document, src: Fields, depth: nat) returns (ok: bool)
    requires depth <= MAX_DEPTH
    modifies dst
    ensures ok <==> Within(Obj(old(dst.fields)), Obj(src), MAX_DEPTH - depth)
    ensures ok ==> dst.fields == Merge(old(dst.fields), src)
    ensures !ok ==> PartlyMerged(dst.fields, old(dst.fields), src)
    decreases MAX_DEPTH + 1 - depth, 1
  {
    ghost var before, n := dst.fields, MAX_DEPTH - depth;
    MergingStarts(before, src, n);
    var keys := src.Keys;
    while keys != {}
      invariant keys <= src.Keys
      invariant Merging(dst.fields, before, src, keys, n)
      decreases |keys|
    {
      var key :| key in keys;
      MergingStep(dst.fields, before, src, keys, n, key);
      var merged := MergeField(dst, src, key, depth);
      if !merged { return false; }
      keys := keys - {key};
    }
    MergingEnds(dst.fields, before, src, n);
    return true;
  }

  /** The body of the loop over src: one key is merged, or nothing changes. */
  method MergeField(dst: Document, src: Fields, key: string, depth: nat) returns (ok: bool)
    requires depth <= MAX_DEPTH && key in src
    modifies dst
    ensures ok <==> FieldWithin(old(dst.fields), src, key, MAX_DEPTH - depth)
    ensures dst.fields == if ok then old(dst.fields)[key := MergedField(old(dst.fields), src, key)] else old(dst.fields)
    decreases MAX_DEPTH + 1 - depth, 0
  {
    var srcVal := src[key];
    if key in dst.fields {
      var srcMap := Document.Mapify(srcVal);
      var dstMap := Document.Mapify(dst.fields[key]);
      if srcMap != null && dstMap != null {
        var done := ReplaceOnlyMergeMap(dstMap, srcMap.fields, depth + 1);
        if !done { return false; }
        srcVal := Obj(dstMap.fields);
      }
    }
    dst.fields := dst.fields[key := srcVal];
    return true;
  }

  /** ReplaceMergeMap: a merge from depth zero. */
  method ReplaceMergeMap(dst: Document?, src: Fields) returns (ok: bool)
    modifies dst
    ensures ok <==> dst != null && Shallow(Obj(old(dst.fields)), Obj(src), 32)
    ensures ok ==> dst.fields == Merge(old(dst.fields), src)
    ensures !ok && dst != null ==> PartlyMerged(dst.fields, old(dst.fields), src)
  {
    if dst != null { WithinIff(Obj(dst.fields), Obj(src), MAX_DEPTH); }
    ok := ReplaceOnlyMergeMap(dst, src, 0);
  }
}
