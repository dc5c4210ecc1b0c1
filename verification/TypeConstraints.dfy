/** The event types a predicate can match, approximated as in cloudevent/cefilter/index.go. */
module TypeConstraints {
  import opened Filters
  import Glob

  datatype TypeConstraint = TypeConstraint(exact: set<string>, globs: seq<Glob.Regexp>, unconstrained: bool)

  const ANY_TYPE := TypeConstraint({}, [], true)

  predicate MatchesSome(globs: seq<Glob.Regexp>, t: string)
  {
    exists i :: 0 <= i < |globs| && Glob.Accepts(globs[i], t)
  }

  /** The types a constraint lets through. */
  predicate Admits(tc: TypeConstraint, t: string)
  {
    tc.unconstrained || t in tc.exact || MatchesSome(tc.globs, t)
  }

  function Intersect(a: TypeConstraint, b: TypeConstraint): TypeConstraint
  {
    TypeConstraint(
      (set v | v in a.exact && (v in b.exact || MatchesSome(b.globs, v))) +
        (set v | v in b.exact && MatchesSome(a.globs, v)),
      a.globs + b.globs,
      false)
  }

  function Union(a: TypeConstraint, b: TypeConstraint): TypeConstraint
  {
    TypeConstraint(a.exact + b.exact, a.globs + b.globs, false)
  }

  function Extract(p: Predicate): TypeConstraint
  {
    match p
    case Eq(k, v) => if k == "type" then TypeConstraint({v}, [], false) else ANY_TYPE
    case Like(k, _, rx) => if k == "type" then TypeConstraint({}, [rx], false) else ANY_TYPE
    case In(k, vals, _) => if k == "type" then TypeConstraint(vals, [], false) else ANY_TYPE
    case And(l, r) =>
      var lc, rc := Extract(l), Extract(r);
      if lc.unconstrained then rc else if rc.unconstrained then lc else Intersect(lc, rc)
    case Or(l, r) =>
      var lc, rc := Extract(l), Extract(r);
      if lc.unconstrained || rc.unconstrained then ANY_TYPE else Union(lc, rc)
    case _ => ANY_TYPE
  }

  lemma MatchesSomeConcat(a: seq<Glob.Regexp>, b: seq<Glob.Regexp>, t: string)
    ensures MatchesSome(a + b, t) <==> MatchesSome(a, t) || MatchesSome(b, t)
  {
    if i :| 0 <= i < |a| && Glob.Accepts(a[i], t) { assert (a + b)[i] == a[i]; }
    if i :| 0 <= i < |b| && Glob.Accepts(b[i], t) { assert (a + b)[|a| + i] == b[i]; }
  }

  /** The intersection lets through everything both sides do, and nothing that neither does. */
  lemma IntersectAdmits(a: TypeConstraint, b: TypeConstraint, t: string)
    requires !a.unconstrained && !b.unconstrained
    ensures Admits(a, t) && Admits(b, t) ==> Admits(Intersect(a, b), t)
    ensures Admits(Intersect(a, b), t) ==> Admits(a, t) || Admits(b, t)
  {
    MatchesSomeConcat(a.globs, b.globs, t);
  }

  /** An exact type is kept exactly when one side names it and the other admits it; globs are kept from both sides. */
  lemma IntersectKeeps(a: TypeConstraint, b: TypeConstraint, v: string)
    requires !a.unconstrained && !b.unconstrained
    ensures v in Intersect(a, b).exact <==> (v in a.exact && Admits(b, v)) || (v in b.exact && Admits(a, v))
    ensures v in Intersect(a, b).exact ==> Admits(a, v) && Admits(b, v)
    ensures a.globs == b.globs == [] ==> (Admits(Intersect(a, b), v) <==> Admits(a, v) && Admits(b, v))
  {
    assert a.globs == [] && b.globs == [] ==> Intersect(a, b).globs == [];
  }

  lemma UnionAdmits(a: TypeConstraint, b: TypeConstraint, t: string)
    requires !a.unconstrained && !b.unconstrained
    ensures Admits(Union(a, b), t) <==> Admits(a, t) || Admits(b, t)
  {
    MatchesSomeConcat(a.globs, b.globs, t);
  }

  /** A predicate with a constraint matches only events that have a type the constraint admits. */
  lemma {:induction false} ConstraintIsSound(p: Predicate, a: Attrs)
    requires Match(p, a) && !Extract(p).unconstrained
    ensures "type" in a && Admits(Extract(p), a["type"])
  {
    match p
    case Like(_, _, rx) => assert [rx][0] == rx;
    case And(l, r) =>
      var lc, rc := Extract(l), Extract(r);
      if lc.unconstrained {
        ConstraintIsSound(r, a);
      } else if rc.unconstrained {
        ConstraintIsSound(l, a);
      } else {
        ConstraintIsSound(l, a);
        ConstraintIsSound(r, a);
        IntersectAdmits(lc, rc, a["type"]);
      }
    case Or(l, r) =>
      if Match(l, a) { ConstraintIsSound(l, a); } else { ConstraintIsSound(r, a); }
      UnionAdmits(Extract(l), Extract(r), a["type"]);
    case _ =>
  }

  /** Every event the predicate matches is compared with `=`, LIKE or IN on its type. */
  predicate NamesType(p: Predicate)
  {
    match p
    case And(l, r) => NamesType(l) || NamesType(r)
    case Or(l, r) => NamesType(l) && NamesType(r)
    case Eq(k, _) => k == "type"
    case Like(k, _, _) => k == "type"
    case In(k, _, _) => k == "type"
    case _ => false
  }

  /** A tree is constrained exactly when it names the type on every branch. */
  lemma {:induction false} ConstrainedIff(p: Predicate)
    ensures !Extract(p).unconstrained <==> NamesType(p)
  {
    match p
    case And(l, r) => ConstrainedIff(l); ConstrainedIff(r);
    case Or(l, r) => ConstrainedIff(l); ConstrainedIff(r);
    case _ =>
  }

  /** Alternatives of comparisons of the type. */
  predicate OnlyTypes(p: Predicate)
  {
    match p
    case Or(l, r) => OnlyTypes(l) && OnlyTypes(r)
    case Eq(k, _) => k == "type"
    case Like(k, _, _) => k == "type"
    case In(k, _, _) => k == "type"
    case _ => false
  }

  /** Of alternatives of comparisons of the type the constraint is exact: it admits what they match and no more. */
  lemma {:induction false} ConstraintIsExact(p: Predicate, a: Attrs, t: string)
    requires OnlyTypes(p)
    ensures !Extract(p).unconstrained
    ensures Match(p, a["type" := t]) <==> Admits(Extract(p), t)
  {
    match p
    case Or(l, r) =>
      ConstraintIsExact(l, a, t);
      ConstraintIsExact(r, a, t);
      UnionAdmits(Extract(l), Extract(r), t);
    case Like(_, _, rx) => assert [rx][0] == rx;
    case _ =>
  }

  /** A constraint is either no constraint at all or proper, never both. */
  lemma {:induction false} UnconstrainedIsBare(p: Predicate)
    ensures Extract(p).unconstrained ==> Extract(p) == ANY_TYPE
  {
    match p
    case And(l, r) => UnconstrainedIsBare(l); UnconstrainedIsBare(r);
    case Or(l, r) => UnconstrainedIsBare(l); UnconstrainedIsBare(r);
    case _ =>
  }

  // ----- the loops that build the constraints -----

  /** The members of values that match some glob, added to found. */
  method KeepMatching(values: set<string>, globs: seq<Glob.Regexp>, found: set<string>) returns (r: set<string>)
    ensures r == found + set v | v in values && MatchesSome(globs, v)
  {
    r := found;
    var todo := values;
    while todo != {}
      invariant todo <= values
      invariant r == found + set v | v in values - todo && MatchesSome(globs, v)
      decreases todo
    {
      var v :| v in todo;
      var hit := false;
      for i := 0 to |globs|
        invariant hit <==> exists j :: 0 <= j < i && Glob.Accepts(globs[j], v)
        invariant r == found + (set w | w in values - todo && MatchesSome(globs, w)) + (if hit then {v} else {})
      {
        if Glob.Accepts(globs[i], v) {
          r := r + {v};
          hit := true;
        }
      }
      assert values - (todo - {v}) == values - todo + {v};
      todo := todo - {v};
    }
  }

  /** intersectConstraints. */
  method IntersectConstraints(a: TypeConstraint, b: TypeConstraint) returns (r: TypeConstraint)
    ensures r == Intersect(a, b)
  {
    var exact := {};
    var todo := a.exact;
    while todo != {}
      invariant todo <= a.exact
      invariant exact == (a.exact - todo) * b.exact
      decreases todo
    {
      var v :| v in todo;
      if v in b.exact { exact := exact + {v}; }
      todo := todo - {v};
    }
    exact := KeepMatching(a.exact, b.globs, exact);
    exact := KeepMatching(b.exact, a.globs, exact);
    r := TypeConstraint(exact, a.globs + b.globs, false);
  }

  /** unionConstraints. */
  method UnionConstraints(a: TypeConstraint, b: TypeConstraint) returns (r: TypeConstraint)
    ensures r == Union(a, b)
  {
    var exact := {};
    var todo := a.exact;
    while todo != {}
      invariant todo <= a.exact && exact == a.exact - todo
      decreases todo
    {
      var v :| v in todo;
      exact := exact + {v};
      todo := todo - {v};
    }
    todo := b.exact;
    while todo != {}
      invariant todo <= b.exact && exact == a.exact + (b.exact - todo)
      decreases todo
    {
      var v :| v in todo;
      exact := exact + {v};
      todo := todo - {v};
    }
    r := TypeConstraint(exact, a.globs + b.globs, false);
  }

  /** extractTypeConstraint, with the loops. */
  method ExtractTypeConstraint(p: Predicate) returns (tc: TypeConstraint)
    ensures tc == Extract(p)
  {
    match p
    case And(l, r) =>
      var lc := ExtractTypeConstraint(l);
      var rc := ExtractTypeConstraint(r);
      if lc.unconstrained { return rc; }
      if rc.unconstrained { return lc; }
      tc := IntersectConstraints(lc, rc);
    case Or(l, r) =>
      var lc := ExtractTypeConstraint(l);
      var rc := ExtractTypeConstraint(r);
      if lc.unconstrained || rc.unconstrained { return ANY_TYPE; }
      tc := UnionConstraints(lc, rc);
    case Eq(k, v) =>
      tc := if k == "type" then TypeConstraint({v}, [], false) else ANY_TYPE;
    case Like(k, _, rx) =>
      tc := if k == "type" then TypeConstraint({}, [rx], false) else ANY_TYPE;
    case In(k, vals, _) =>
      tc := if k == "type" then TypeConstraint(vals, [], false) else ANY_TYPE;
    case _ =>
      tc := ANY_TYPE;
  }
}
