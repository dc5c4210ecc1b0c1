/** Substitution and extraction undo each other, exactly when the values are clean. */
module SubjectRoundTrips {
  import opened Wrappers
  import opened Subjects
  import opened SubjectTemplates
  import opened SubjectExpansion

  // ----- extraction after substitution -----

  /** Fewer segments than the template has do not fit it. */
  lemma ShortIsRefused(segs: seq<Segment>, texts: seq<string>)
    requires IsTemplate(segs) && PlainSegments(texts) && |texts| < |segs|
    ensures |Tokenize(Join(texts))| < |segs| && Extract(Join(texts), Render(segs)) == None
  {
    ParseTemplate(segs);
    if texts != [] { AtMostOneEach(texts, 0, ""); }
  }

  /**
   Extraction from the subject recovers exactly the template's parameters if and only
   if their values are clean and every segment but the last has balanced braces.
   */
  lemma RoundTripIff(segs: seq<Segment>, values: map<string, string>)
    requires IsTemplate(segs)
    ensures var subject := ReplaceEach(FindParams(Render(segs)), Render(segs), values);
            subject.Some? && Extract(subject.value, Render(segs)) == Some(Params(segs, values)) <==>
            Clean(segs, values) && Balanced(Texts(Substituted(segs, values)))
    ensures var subject := ReplaceEach(FindParams(Render(segs)), Render(segs), values);
            subject.Some? && Extract(subject.value, Render(segs)).Some? ==> |Tokenize(subject.value)| == |segs|
  {
    var names := NamesOf(segs);
    ParseTemplate(segs);
    if Accepted(names, values) {
      var texts := SubjectIs(segs, values);
      var finals := Finals(names, values);
      FinalsAreSegments(segs, values);
      RenderIsJoin(Substituted(segs, finals));
      ExtractSubstituted(segs, finals);
      if |texts| < |segs| { ShortIsRefused(segs, texts); }
      if Settled(names, values) { SettledIsKept(segs, values); } else { UnsettledDiffers(segs, values); }
    } else {
      FindTail(segs);
      ReplaceSucceedsIff(names, Render(segs), values);
    }
  }

  /**
   Of two requests with one subject, the first of them clean, the second agrees with
   it if and only if it is clean too.
   */
  lemma SameSubjectIff(segs: seq<Segment>, v1: map<string, string>, v2: map<string, string>)
    requires IsTemplate(segs) && Clean(segs, v1)
    requires ReplaceEach(FindParams(Render(segs)), Render(segs), v1) ==
             ReplaceEach(FindParams(Render(segs)), Render(segs), v2)
    ensures Params(segs, v1) == Params(segs, v2) <==> Clean(segs, v2)
  {
    SubstitutionIsIff(segs, v1);
    SubstitutionIsIff(segs, v2);
    if Params(segs, v1) == Params(segs, v2) { SameParams(segs, v1, v2); }
    if Clean(segs, v2) {
      SameTexts(segs, v1, v2);
      SameValues(segs, v1, v2);
    }
  }

  lemma SameParams(segs: seq<Segment>, v1: map<string, string>, v2: map<string, string>)
    requires Params(segs, v1) == Params(segs, v2)
    ensures Substituted(segs, v1) == Substituted(segs, v2)
  {
    forall i | 0 <= i < |segs| ensures Substituted(segs, v1)[i] == Substituted(segs, v2)[i] {
      if segs[i].Param? {
        var n := segs[i].name;
        assert n in Params(segs, v1) <==> n in Params(segs, v2);
        assert n in Params(segs, v1) ==> Params(segs, v1)[n] == Params(segs, v2)[n];
      }
    }
  }

  lemma {:induction false} SameTexts(segs: seq<Segment>, v1: map<string, string>, v2: map<string, string>)
    requires IsTemplate(segs) && Accepted(NamesOf(segs), v1) && Accepted(NamesOf(segs), v2)
    requires Render(Substituted(segs, v1)) == Render(Substituted(segs, v2))
    ensures Texts(Substituted(segs, v1)) == Texts(Substituted(segs, v2))
  {
    AcceptedIsSegmented(NamesOf(segs), v1);
    AcceptedIsSegmented(NamesOf(segs), v2);
    SubstitutedIsPlain(segs, v1);
    SubstitutedIsPlain(segs, v2);
    RenderIsJoin(Substituted(segs, v1));
    RenderIsJoin(Substituted(segs, v2));
    JoinIsInjective(Texts(Substituted(segs, v1)), Texts(Substituted(segs, v2)));
  }

  lemma SameValues(segs: seq<Segment>, v1: map<string, string>, v2: map<string, string>)
    requires Accepted(NamesOf(segs), v1) && Accepted(NamesOf(segs), v2)
    requires Texts(Substituted(segs, v1)) == Texts(Substituted(segs, v2))
    ensures Params(segs, v1) == Params(segs, v2)
  {
    NamesAreParams(segs);
    forall n | n in NamesOf(segs) ensures n in v1 && n in v2 && v1[n] == v2[n] {
      var k :| 0 <= k < |NamesOf(segs)| && NamesOf(segs)[k] == n;
      var i :| 0 <= i < |segs| && segs[i] == Param(n);
      SubstitutedText(segs, v1, i);
      SubstitutedText(segs, v2, i);
    }
  }

  // ----- substitution after extraction -----

  lemma SettledFits(segs: seq<Segment>, route: string, m: map<string, string>)
    requires IsTemplate(segs) && Accepted(NamesOf(segs), m) && Settled(NamesOf(segs), m)
    requires Extract(route, Render(segs)) == Some(m) && |Tokenize(route)| == |segs|
    requires RepeatsAgree(segs, Tokenize(route))
    ensures Fits(segs, Tokenize(route), Finals(NamesOf(segs), m))
  {
    var names := NamesOf(segs);
    ExtractedFitsIff(segs, route, m);
    NamesArePlain(segs);
    forall n | n in names ensures Finals(names, m)[n] == m[n] {
      var i :| 0 <= i < |names| && names[i] == n;
    }
  }

  lemma FitsSettled(segs: seq<Segment>, route: string, m: map<string, string>)
    requires IsTemplate(segs) && Accepted(NamesOf(segs), m)
    requires Extract(route, Render(segs)) == Some(m) && Fits(segs, Tokenize(route), Finals(NamesOf(segs), m))
    ensures Settled(NamesOf(segs), m) && RepeatsAgree(segs, Tokenize(route))
  {
    var names := NamesOf(segs);
    NamesAreParams(segs);
    forall k | 0 <= k < |names| ensures Expanded(names, ParamText(names[k]), m) == m[names[k]] {
      var i :| 0 <= i < |segs| && segs[i] == Param(names[k]);
      var j := ExtractedFrom(segs, route, m, i);
      assert Finals(names, m)[names[k]] == Tokenize(route)[j];
    }
  }

  /** The final texts of the extracted values give the route back. */
  lemma ReverseUncrossed(segs: seq<Segment>, route: string, m: map<string, string>)
    requires IsTemplate(segs) && Accepted(NamesOf(segs), m) && Extract(route, Render(segs)) == Some(m)
    ensures |Tokenize(route)| == |segs|
    ensures Render(Substituted(segs, Finals(NamesOf(segs), m))) == route <==>
            Settled(NamesOf(segs), m) && RepeatsAgree(segs, Tokenize(route)) && Join(Tokenize(route)) == route
  {
    var names := NamesOf(segs);
    ExtractedLength(segs, route, m);
    FinalsAreSegments(segs, m);
    RebuiltIff(segs, route, Finals(names, m));
    if Fits(segs, Tokenize(route), Finals(names, m)) {
      FitsSettled(segs, route, m);
    } else if Settled(names, m) && RepeatsAgree(segs, Tokenize(route)) {
      SettledFits(segs, route, m);
    }
  }

  /**
   For every route that extraction accepts: substituting what was extracted gives it
   back if and only if the values are clean, the segments of equal parameters are
   equal, and no segment is empty.
   */
  lemma ReverseRoundTripIff(segs: seq<Segment>, route: string, m: map<string, string>)
    requires IsTemplate(segs) && Extract(route, Render(segs)) == Some(m)
    ensures |Tokenize(route)| == |segs|
    ensures ReplaceEach(FindParams(Render(segs)), Render(segs), m) == Some(route) <==>
            Clean(segs, m) && RepeatsAgree(segs, Tokenize(route)) && Join(Tokenize(route)) == route
  {
    var names := NamesOf(segs);
    ExtractedLength(segs, route, m);
    if Accepted(names, m) {
      var texts := SubjectIs(segs, m);
      ReverseUncrossed(segs, route, m);
      RenderIsJoin(Substituted(segs, Finals(names, m)));
      if |texts| < |segs| { ShortIsRefused(segs, texts); }
    } else {
      FindTail(segs);
      ReplaceSucceedsIff(names, Render(segs), m);
    }
  }

  /** On a route written as balanced segments the values and the repeats alone decide. */
  lemma SegmentsComeBackIff(segs: seq<Segment>, route: seq<string>, m: map<string, string>)
    requires IsTemplate(segs) && PlainSegments(route) && Balanced(route)
    requires Extract(Join(route), Render(segs)) == Some(m)
    ensures |route| == |segs|
    ensures ReplaceEach(FindParams(Render(segs)), Render(segs), m) == Some(Join(route)) <==>
            Clean(segs, m) && RepeatsAgree(segs, route)
  {
    TokenizeJoinIff(route);
    ReverseRoundTripIff(segs, Join(route), m);
  }

  // ----- conditions on the values alone -----

  /** Values are clean when the intended subject holds no parameter's text. */
  lemma QuietIsClean(segs: seq<Segment>, values: map<string, string>)
    requires IsTemplate(segs) && Quiet(segs, values)
    ensures Clean(segs, values)
  {
    QuietSubstitution(segs, values);
    SubstitutionIsIff(segs, values);
  }

  /** Values without braces are clean and balanced, so they always come back. */
  lemma {:induction false} BracelessComeBack(segs: seq<Segment>, values: map<string, string>)
    requires IsTemplate(segs) && Accepted(NamesOf(segs), values)
    requires forall i :: 0 <= i < |NamesOf(segs)| ==> NoBraces(values[NamesOf(segs)[i]])
    ensures Clean(segs, values) && Balanced(Texts(Substituted(segs, values)))
    ensures var subject := ReplaceEach(FindParams(Render(segs)), Render(segs), values);
            && subject.Some? && Extract(subject.value, Render(segs)) == Some(Params(segs, values))
            && |Tokenize(subject.value)| == |segs|
  {
    InertIsQuiet(segs, values);
    QuietIsClean(segs, values);
    NamesArePlain(segs);
    var out := Substituted(segs, values);
    forall i | 0 <= i < |out| ensures Balance(Texts(out)[i]) == 0 {
      assert GoodSegment(segs[i]) && !segs[i].Value?;
      if segs[i].Param? {
        var k :| 0 <= k < |NamesOf(segs)| && NamesOf(segs)[k] == segs[i].name;
        assert NoBraces(values[NamesOf(segs)[k]]);
      }
      NoBracesBalance(out[i].Text());
    }
    RoundTripIff(segs, values);
  }

  /** A name without a dot is not spelled across a separator. */
  lemma {:induction false} DotlessCrossesNothing(segs: seq<Segment>, name: string)
    requires '.' !in name
    ensures !Crosses(segs, name)
  {
    if segs != [] {
      DotlessCrossesNothing(segs[1..], name);
      var p, w := ParamText(name), segs[0].Text();
      forall j | 0 <= j < |w| && |w| - j < |p| ensures !(p <= w[j..] + Tail(segs[1..])) {
        assert p[|w| - j] != '.';
        if segs[1..] != [] { assert (w[j..] + Tail(segs[1..]))[|w| - j] == '.'; }
      }
    }
  }

  ghost predicate Dotless(names: seq<string>)
  {
    forall i :: 0 <= i < |names| ==> '.' !in names[i]
  }

  /** So the subject of a template without dots in its names never merges segments. */
  lemma {:induction false} DotlessIsUncrossed(segs: seq<Segment>, names: seq<string>, values: map<string, string>)
    requires Accepted(names, values) && Dotless(names)
    ensures Uncrossed(segs, names, values)
  {
    if names != [] {
      var init, last := names[..|names| - 1], names[|names| - 1];
      assert forall i :: 0 <= i < |init| ==> init[i] == names[i];
      DotlessIsUncrossed(segs, init, values);
      DotlessCrossesNothing(Staged(segs, init, values), last);
    }
  }

  /** No value holds the text of a parameter that is substituted after it. */
  ghost predicate Undisturbed(names: seq<string>, values: map<string, string>)
    requires Accepted(names, values)
  {
    forall i, j :: 0 <= i < j < |names| ==> !Occurs(ParamText(names[j]), values[names[i]])
  }

  lemma AbsentIsKept(s: string, pattern: string, value: string)
    requires pattern != [] && !Occurs(pattern, s)
    ensures ReplaceAll(s, pattern, value) == s
  {
    assert s + "" == s;
    CopyText(s, "", pattern, value);
  }

  lemma ExpandsTo(name: string, value: string)
    ensures ReplaceAll(ParamText(name), ParamText(name), value) == value
  {
    ReplaceHere(name, "", value);
    assert ParamText(name) + "" == ParamText(name) && value + "" == value;
  }

  /** What the substitution of names makes of a parameter whose value it leaves alone. */
  function Becomes(names: seq<string>, name: string, values: map<string, string>): string
  {
    if name in names && name in values then values[name] else ParamText(name)
  }

  lemma {:induction false} UndisturbedStep(init: seq<string>, last: string, name: string, values: map<string, string>)
    requires Accepted(init + [last], values) && Undisturbed(init + [last], values) && PlainName(name) && PlainName(last)
    ensures last in values
    ensures ReplaceAll(Becomes(init, name, values), ParamText(last), values[last]) ==
            Becomes(init + [last], name, values)
  {
    var names := init + [last];
    assert names[|init|] == last;
    if name in init {
      var i :| 0 <= i < |init| && init[i] == name;
      assert names[i] == name;
      AbsentIsKept(values[name], ParamText(last), values[last]);
    } else if name == last {
      ExpandsTo(name, values[name]);
    } else {
      CopyOtherParam(name, "", last, values[last]);
      assert ParamText(name) + "" == ParamText(name);
    }
  }

  lemma UndisturbedInit(init: seq<string>, last: string, values: map<string, string>)
    requires Accepted(init + [last], values) && Undisturbed(init + [last], values) && PlainNames(init + [last])
    ensures Accepted(init, values) && Undisturbed(init, values) && PlainNames(init) && PlainName(last)
  {
    var names := init + [last];
    assert names[|init|] == last && forall i :: 0 <= i < |init| ==> init[i] == names[i];
  }

  lemma {:induction false} UndisturbedExpands(names: seq<string>, name: string, values: map<string, string>)
    requires Accepted(names, values) && Undisturbed(names, values) && PlainNames(names) && PlainName(name)
    ensures Expanded(names, ParamText(name), values) == Becomes(names, name, values)
  {
    if names != [] {
      var init, last := names[..|names| - 1], names[|names| - 1];
      assert names == init + [last];
      UndisturbedInit(init, last, values);
      UndisturbedExpands(init, name, values);
      UndisturbedStep(init, last, name, values);
      ExpandedStep(names, ParamText(name), values);
    }
  }

  /** Undisturbed values are settled, */
  lemma UndisturbedIsSettled(names: seq<string>, values: map<string, string>)
    requires Accepted(names, values) && Undisturbed(names, values) && PlainNames(names)
    ensures Settled(names, values)
  {
    forall i | 0 <= i < |names| { UndisturbedExpands(names, names[i], values); }
  }

  /** and values in which no parameter opens are undisturbed. */
  lemma InertIsUndisturbed(names: seq<string>, values: map<string, string>)
    requires Inert(names, values)
    ensures Undisturbed(names, values)
  {
    forall i, j | 0 <= i < j < |names| ensures !Occurs(ParamText(names[j]), values[names[i]]) {
      NoOpeningIsAbsent(values[names[i]], names[j]);
    }
  }

  /** So undisturbed values come back exactly when no segments merge and the braces are balanced. */
  lemma RoundTripIffUndisturbed(segs: seq<Segment>, values: map<string, string>)
    requires IsTemplate(segs) && Accepted(NamesOf(segs), values) && Undisturbed(NamesOf(segs), values)
    ensures var subject := ReplaceEach(FindParams(Render(segs)), Render(segs), values);
            subject.Some? && Extract(subject.value, Render(segs)) == Some(Params(segs, values)) <==>
            Uncrossed(segs, NamesOf(segs), values) && Balanced(Texts(Substituted(segs, values)))
  {
    NamesArePlain(segs);
    UndisturbedIsSettled(NamesOf(segs), values);
    RoundTripIff(segs, values);
  }

  // ----- the concrete failures -----

  lemma PairNames(a: string, b: string)
    ensures NamesOf([Param(a), Param(b)]) == [a, b]
  {
    var segs := [Param(a), Param(b)];
    assert segs[1..] == [Param(b)] && [Param(b)][1..] == [];
    assert NamesOf([Param(b)]) == [b] + [] == [b];
    assert [a] + [b] == [a, b];
  }

  lemma PairRenders(x: string)
    ensures Render([Value(x), Value(x)]) == x + ("." + x)
  {
    var out := [Value(x), Value(x)];
    assert out[1..] == [Value(x)] && [Value(x)][1..] == [] && x + "" == x;
    assert Render([Value(x)]) == x;
  }

  /** The values of a template of two parameters, the first being the text of the second. */
  function Nested(a: string, b: string, x: string): map<string, string>
  {
    map[a := ParamText(b), b := x]
  }

  lemma ExpandedTwice(a: string, b: string, s: string, values: map<string, string>)
    requires Accepted([a, b], values)
    ensures a in values && b in values
    ensures Expanded([a, b], s, values) ==
            ReplaceAll(ReplaceAll(s, ParamText(a), values[a]), ParamText(b), values[b])
  {
    assert [a, b][0] == a && [a, b][1] == b;
    assert [a, b][..1] == [a] && [a][..0] == [];
    ExpandedStep([a, b], s, values);
    ExpandedStep([a], s, values);
  }

  lemma NestedExpands(a: string, b: string, x: string)
    requires PlainName(a) && PlainName(b) && a != b && ValidToken(x) && ValidToken(ParamText(b))
    ensures Accepted([a, b], Nested(a, b, x))
    ensures Expanded([a, b], ParamText(a), Nested(a, b, x)) == Expanded([a, b], ParamText(b), Nested(a, b, x)) == x
  {
    ExpandedTwice(a, b, ParamText(a), Nested(a, b, x));
    ExpandedTwice(a, b, ParamText(b), Nested(a, b, x));
    ExpandsTo(a, ParamText(b));
    ExpandsTo(b, x);
    RenewedText(Param(b), a, ParamText(b));
  }

  lemma NestedIsUnsettled(a: string, b: string, x: string)
    requires PlainName(a) && PlainName(b) && a != b && ValidToken(x) && ValidToken(ParamText(b)) && x != ParamText(b)
    ensures Accepted([a, b], Nested(a, b, x)) && !Settled([a, b], Nested(a, b, x))
    ensures Finals([a, b], Nested(a, b, x)) == map[a := x, b := x]
  {
    var values, names := Nested(a, b, x), [a, b];
    NestedExpands(a, b, x);
    assert Expanded(names, ParamText(names[0]), values) != values[names[0]];
  }

  lemma NestedRenders(a: string, b: string, x: string)
    requires PlainName(a) && PlainName(b) && a != b && '.' !in a && '.' !in b && ValidToken(x)
    requires ValidToken(ParamText(b)) && x != ParamText(b)
    ensures var segs, values := [Param(a), Param(b)], Nested(a, b, x);
            && IsTemplate(segs) && Accepted(NamesOf(segs), values) && !Settled(NamesOf(segs), values)
            && ReplaceEach(FindParams(Render(segs)), Render(segs), values) == Some(x + ("." + x))
  {
    var segs, values := [Param(a), Param(b)], Nested(a, b, x);
    PairNames(a, b);
    NestedIsUnsettled(a, b, x);
    DotlessIsUncrossed(segs, [a, b], values);
    ExpansionIsIff(segs, values);
    PairRenders(x);
    assert Substituted(segs, map[a := x, b := x]) == [Value(x), Value(x)];
  }

  /** On "${a}.${b}" with a = "${b}" and b = "x" the subject is "x.x", and a comes back as "x". */
  lemma {:induction false} NestedValueIsExpanded()
    ensures var segs, values := [Param("a"), Param("b")], Nested("a", "b", "x");
            && ReplaceEach(FindParams(Render(segs)), Render(segs), values) == Some("x.x")
            && Accepted(NamesOf(segs), values) && !Settled(NamesOf(segs), values)
  {
    assert ParamText("b") == "${b}" && |"x"| != |ParamText("b")|;
    NestedRenders("a", "b", "x");
    assert "x" + ("." + "x") == "x.x";
  }

  /** Two values that together spell the text of a parameter with a dot in its name. */
  function Spelling(p: string, q: string, a: string, b: string, x: string): map<string, string>
  {
    map[p := "${" + a, q := b + "}", a + "." + b := x]
  }

  lemma OpenIsKept(a: string, name: string, value: string)
    requires NoBraces(a)
    ensures ReplaceAll("${" + a, ParamText(name), value) == "${" + a
  {
    var p, s := ParamText(name), "${" + a;
    forall k | 0 <= k < |s| ensures !(p <= s[k..]) {
      assert p[|p| - 1] == '}';
      assert |p| <= |s[k..]| ==> s[k..][|p| - 1] == s[k + |p| - 1] != '}';
    }
    AbsentIsKept(s, p, value);
  }

  lemma SpellingNames(p: string, q: string, n: string)
    ensures NamesOf([Param(p), Param(q), Param(n)]) == [p, q, n]
  {
    PairNames(q, n);
    assert [Param(p), Param(q), Param(n)][1..] == [Param(q), Param(n)];
    assert [p] + [q, n] == [p, q, n];
  }

  lemma SpellingStaged(p: string, q: string, a: string, b: string, x: string)
    requires NoBraces(a) && p != q && p != a + "." + b && q != a + "." + b
    requires Accepted([p, q], Spelling(p, q, a, b, x))
    ensures Staged([Param(p), Param(q), Param(a + "." + b)], [p, q], Spelling(p, q, a, b, x)) ==
            [Value("${" + a), Value(b + "}"), Param(a + "." + b)]
  {
    var values, n := Spelling(p, q, a, b, x), a + "." + b;
    var segs := [Param(p), Param(q), Param(n)];
    assert [p, q][..1] == [p] && [p][..0] == [];
    assert Staged(segs, [p], values) == [Value("${" + a), Param(q), Param(n)];
    OpenIsKept(a, q, b + "}");
  }

  lemma SpelledText(a: string, b: string, t: string)
    ensures "${" + a + ("." + (b + "}") + t) == ParamText(a + "." + b) + t
  {
  }

  lemma StartsAtFront(w: string, rest: seq<Segment>, name: string, t: string)
    requires 0 < |w| < |ParamText(name)| && w + Tail(rest) == ParamText(name) + t
    ensures StartsIn(w, rest, name)
  {
    assert w[0..] == w;
    assert ParamText(name) == (ParamText(name) + t)[..|ParamText(name)|];
  }

  lemma SpellingCrosses(a: string, b: string)
    ensures Crosses([Value("${" + a), Value(b + "}"), Param(a + "." + b)], a + "." + b)
  {
    var n := a + "." + b;
    var segs, rest := [Value("${" + a), Value(b + "}"), Param(n)], [Value(b + "}"), Param(n)];
    assert segs[1..] == rest;
    TailCons(rest);
    SpelledText(a, b, Tail(rest[1..]));
    StartsAtFront("${" + a, rest, n, Tail(rest[1..]));
  }

  lemma SpellingCrossed(p: string, q: string, a: string, b: string, x: string)
    requires NoBraces(a) && p != q && p != a + "." + b && q != a + "." + b
    requires ValidToken("${" + a) && ValidToken(b + "}") && ValidToken(x)
    ensures var segs, names := [Param(p), Param(q), Param(a + "." + b)], [p, q, a + "." + b];
            Accepted(names, Spelling(p, q, a, b, x)) && !Uncrossed(segs, names, Spelling(p, q, a, b, x))
  {
    var n, values := a + "." + b, Spelling(p, q, a, b, x);
    assert [p, q, n][..2] == [p, q];
    assert values[p] == "${" + a && values[q] == b + "}" && values[n] == x;
    SpellingStaged(p, q, a, b, x);
    SpellingCrosses(a, b);
  }

  /**
   On a template of the parameters p, q and "a.b", the values "${a" and "b}" of the
   first two merge with the dot between them, and nothing is extracted.
   */
  lemma SpelledAcrossIsLost(p: string, q: string, a: string, b: string, x: string)
    requires PlainName(p) && PlainName(q) && NoBraces(a) && NoBraces(b)
    requires p != q && p != a + "." + b && q != a + "." + b
    requires ValidToken("${" + a) && ValidToken(b + "}") && ValidToken(x)
    ensures var segs, values := [Param(p), Param(q), Param(a + "." + b)], Spelling(p, q, a, b, x);
            var subject := ReplaceEach(FindParams(Render(segs)), Render(segs), values);
            subject.Some? && Extract(subject.value, Render(segs)) == None
  {
    var segs := [Param(p), Param(q), Param(a + "." + b)];
    SpellingNames(p, q, a + "." + b);
    SpellingCrossed(p, q, a, b, x);
    var texts := SubjectIs(segs, Spelling(p, q, a, b, x));
    ShortIsRefused(segs, texts);
  }

  /**
   Of a parameter that occurs twice only the second segment is returned, and it is
   put in both places.
   */
  lemma RepeatedParameter(name: string, x: string, y: string)
    requires PlainName(name) && PlainSegments([x, y]) && Balance(x) == 0 && ValidToken(y) && NoOpening(y)
    ensures var template := Render([Param(name), Param(name)]);
            && Extract(Join([x, y]), template) == Some(map[name := y])
            && ReplaceEach(FindParams(template), template, map[name := y]) == Some(y + ("." + y))
  {
    RepeatedIsExtracted(name, x, y);
    var segs, values := [Param(name), Param(name)], map[name := y];
    PairNames(name, name);
    InertIsQuiet(segs, values);
    QuietSubstitution(segs, values);
    assert Substituted(segs, values) == [Value(y), Value(y)];
    PairRenders(y);
  }

  lemma RepeatedIsExtracted(name: string, x: string, y: string)
    requires PlainName(name) && PlainSegments([x, y]) && Balance(x) == 0
    ensures Extract(Join([x, y]), Render([Param(name), Param(name)])) == Some(map[name := y])
  {
    var segs, route := [Param(name), Param(name)], [x, y];
    ParseTemplate(segs);
    TokenizeJoinIff(route);
    assert Texts(segs) == [ParamText(name), ParamText(name)];
    RepeatedTokens(name, x, y);
  }

  /** The route "x.y" of the template "${a}.${a}" comes back as "y.y". */
  lemma {:induction false} RepeatedParameterIsLost()
    ensures var template := Render([Param("a"), Param("a")]);
            && Extract(Join(["x", "y"]), template) == Some(map["a" := "y"])
            && ReplaceEach(FindParams(template), template, map["a" := "y"]) == Some("y.y")
  {
    assert Balance("x") == 0;
    RepeatedParameter("a", "x", "y");
    assert "y" + ("." + "y") == "y.y";
  }
}
