/** Templates made of words and whole parameters, and what extraction makes of them. */
module SubjectTemplates {
  import opened Wrappers
  import opened Subjects

  /** A segment of a template, or a value put in place of a parameter. */
  datatype Segment = Word(text: string) | Param(name: string) | Value(value: string)
  {
    function Text(): string
    {
      match this
      case Word(t) => t
      case Param(n) => ParamText(n)
      case Value(v) => v
    }
  }

  predicate NoBraces(s: string)
  {
    '{' !in s && '}' !in s
  }

  /** No parameter opens in s. */
  predicate NoOpening(s: string)
  {
    forall i :: 0 <= i < |s| - 1 ==> !(s[i] == '$' && s[i + 1] == '{')
  }

  predicate PlainName(name: string)
  {
    name != "" && NoBraces(name)
  }

  predicate IsWord(text: string)
  {
    text != "" && forall i :: 0 <= i < |text| ==> IsWordChar(text[i])
  }

  predicate GoodSegment(seg: Segment)
  {
    match seg
    case Word(t) => IsWord(t)
    case Param(n) => PlainName(n)
    case Value(_) => true
  }

  /** A template as written: words and parameters only. */
  ghost predicate IsTemplate(segs: seq<Segment>)
  {
    forall i :: 0 <= i < |segs| ==> GoodSegment(segs[i]) && !segs[i].Value?
  }

  function Texts(segs: seq<Segment>): seq<string>
  {
    seq(|segs|, i requires 0 <= i < |segs| => segs[i].Text())
  }

  /** The separator and the segments behind it. */
  function Tail(segs: seq<Segment>): string
    decreases segs, 1
  {
    if segs == [] then "" else "." + Render(segs)
  }

  function Render(segs: seq<Segment>): string
    decreases segs, 0
  {
    if segs == [] then "" else segs[0].Text() + Tail(segs[1..])
  }

  lemma {:induction false} RenderIsJoin(segs: seq<Segment>)
    ensures Render(segs) == Join(Texts(segs))
  {
    if segs != [] {
      RenderIsJoin(segs[1..]);
      assert Texts(segs)[1..] == Texts(segs[1..]);
      if |segs| == 1 { assert segs[0].Text() + "" == segs[0].Text(); }
      else { assert segs[0].Text() + "." + Join(Texts(segs[1..])) == segs[0].Text() + ("." + Join(Texts(segs[1..]))); }
    }
  }

  function NamesOf(segs: seq<Segment>): seq<string>
  {
    if segs == [] then []
    else (if segs[0].Param? then [segs[0].name] else []) + NamesOf(segs[1..])
  }

  // ----- finding parameters and tokens in a template -----

  lemma {:induction false} IndexOfIs(a: string, c: char, rest: string)
    requires c !in a
    ensures IndexOf(a + [c] + rest, c) == |a|
  {
    if a != [] {
      assert (a + [c] + rest)[1..] == a[1..] + [c] + rest;
      IndexOfIs(a[1..], c, rest);
    }
  }

  lemma ParamLenIs(name: string, rest: string)
    requires PlainName(name)
    ensures ParamLen(ParamText(name) + rest) == |ParamText(name)|
  {
    var s := ParamText(name) + rest;
    assert s[2..] == name + ['}'] + rest;
    IndexOfIs(name, '}', rest);
  }

  lemma {:induction false} SkipNoDollar(w: string, rest: string)
    requires '$' !in w
    ensures FindParams(w + rest) == FindParams(rest)
  {
    if w == [] {
      assert w + rest == rest;
    } else {
      assert (w + rest)[1..] == w[1..] + rest;
      assert ParamLen(w + rest) == 0;
      SkipNoDollar(w[1..], rest);
    }
  }

  lemma FindParam(name: string, rest: string)
    requires PlainName(name)
    ensures FindParams(ParamText(name) + rest) == [name] + FindParams(rest)
  {
    ParamLenIs(name, rest);
    var s, n := ParamText(name) + rest, |ParamText(name)|;
    assert s[2..n - 1] == name && s[n..] == rest;
  }

  lemma {:induction false} FindTail(segs: seq<Segment>)
    requires IsTemplate(segs)
    ensures FindParams(Render(segs)) == NamesOf(segs) && FindParams(Tail(segs)) == NamesOf(segs)
  {
    if segs != [] {
      FindTail(segs[1..]);
      var rest := Tail(segs[1..]);
      assert GoodSegment(segs[0]) && !segs[0].Value?;
      if segs[0].Word? {
        assert '$' !in segs[0].text;
        SkipNoDollar(segs[0].text, rest);
      } else {
        FindParam(segs[0].name, rest);
      }
      SkipNoDollar(".", Render(segs));
    }
  }

  lemma {:induction false} WordLenIs(w: string, rest: string)
    requires IsWord(w) && (rest != [] ==> !IsWordChar(rest[0]))
    ensures WordLen(w + rest) == |w|
  {
    assert forall i :: 0 <= i < |w| ==> (w + rest)[i] == w[i];
    assert rest != [] ==> (w + rest)[|w|] == rest[0];
  }

  lemma {:induction false} ParseWord(w: string, rest: string)
    requires IsWord(w) && (rest != [] ==> !IsWordChar(rest[0]))
    ensures ParseTokens(w + rest) == [w] + ParseTokens(rest)
  {
    WordLenIs(w, rest);
    assert (w + rest)[..|w|] == w && (w + rest)[|w|..] == rest;
  }

  lemma ParseParam(name: string, rest: string)
    requires PlainName(name)
    ensures ParseTokens(ParamText(name) + rest) == [ParamText(name)] + ParseTokens(rest)
  {
    ParamLenIs(name, rest);
    var s, n := ParamText(name) + rest, |ParamText(name)|;
    assert s[..n] == ParamText(name) && s[n..] == rest;
  }

  /** parseTokens of a template gives its segments. */
  lemma {:induction false} ParseSegment(seg: Segment, rest: string)
    requires GoodSegment(seg) && !seg.Value? && (rest != [] ==> rest[0] == '.')
    ensures ParseTokens(seg.Text() + rest) == [seg.Text()] + ParseTokens(rest)
  {
    if seg.Word? { ParseWord(seg.text, rest); } else { ParseParam(seg.name, rest); }
  }

  lemma TextsCons(segs: seq<Segment>)
    requires segs != []
    ensures Texts(segs) == [segs[0].Text()] + Texts(segs[1..])
  {
  }

  lemma {:induction false} ParseTemplate(segs: seq<Segment>)
    requires IsTemplate(segs)
    ensures ParseTokens(Render(segs)) == Texts(segs) && ParseTokens(Tail(segs)) == Texts(segs)
  {
    if segs != [] {
      ParseTemplate(segs[1..]);
      assert GoodSegment(segs[0]) && !segs[0].Value?;
      ParseSegment(segs[0], Tail(segs[1..]));
      TextsCons(segs);
      ParseDot(Render(segs));
    }
  }

  /** Letters, digits and underscores make one token. */
  lemma WordIsOneToken(w: string)
    requires w != "" && forall i :: 0 <= i < |w| ==>
             'a' <= w[i] <= 'z' || 'A' <= w[i] <= 'Z' || '0' <= w[i] <= '9' || w[i] == '_'
    ensures ParseTokens(w) == [w]
  {
    ParseWord(w, "");
    assert w + "" == w && [w] + [] == [w];
  }

  lemma ParseDot(s: string)
    ensures ParseTokens("." + s) == ParseTokens(s)
  {
    var t := "." + s;
    assert t[1..] == s && t[0] == '.';
    assert ParamLen(t) == 0 && WordLen(t) == 0;
  }

  // ----- substituting one parameter -----

  function Put(seg: Segment, name: string, value: string): Segment
  {
    if seg == Param(name) then Value(value) else seg
  }

  function PutAll(segs: seq<Segment>, name: string, value: string): seq<Segment>
  {
    seq(|segs|, i requires 0 <= i < |segs| => Put(segs[i], name, value))
  }

  /** Text in which the pattern does not start is copied. */
  lemma {:induction false} CopyText(w: string, rest: string, pattern: string, value: string)
    requires pattern != [] && forall i :: 0 <= i < |w| ==> !(pattern <= (w + rest)[i..])
    ensures ReplaceAll(w + rest, pattern, value) == w + ReplaceAll(rest, pattern, value)
  {
    if w == [] {
      assert w + rest == rest;
    } else {
      assert (w + rest)[0..] == w + rest && (w + rest)[1..] == w[1..] + rest;
      forall i | 0 <= i < |w[1..]| ensures !(pattern <= (w[1..] + rest)[i..]) {
        assert (w[1..] + rest)[i..] == (w + rest)[i + 1..];
      }
      CopyText(w[1..], rest, pattern, value);
    }
  }

  /** A parameter cannot start in text in which none opens. */
  lemma CopyPlain(w: string, rest: string, name: string, value: string)
    requires NoOpening(w) && (w != [] && w[|w| - 1] == '$' && rest != [] ==> rest[0] != '{')
    ensures ReplaceAll(w + rest, ParamText(name), value) == w + ReplaceAll(rest, ParamText(name), value)
  {
    var p, s := ParamText(name), w + rest;
    forall i | 0 <= i < |w| ensures !(p <= s[i..]) {
      assert p[0] == '$' && p[1] == '{' && s[i] == w[i];
      if i + 1 < |s| {
        assert s[i..][0] == s[i] && s[i..][1] == s[i + 1];
        assert s[i + 1] == if i + 1 < |w| then w[i + 1] else rest[0];
      }
    }
    CopyText(w, rest, p, value);
  }

  lemma CopyOtherParam(other: string, rest: string, name: string, value: string)
    requires PlainName(other) && PlainName(name) && other != name && (rest != [] ==> rest[0] != '{')
    ensures ReplaceAll(ParamText(other) + rest, ParamText(name), value) ==
            ParamText(other) + ReplaceAll(rest, ParamText(name), value)
  {
    var p, w := ParamText(name), ParamText(other);
    DifferentParams(name, other, rest);
    forall i | 0 <= i < |w| ensures !(p <= (w + rest)[i..]) {
      if i == 0 {
        assert (w + rest)[0..] == w + rest;
      } else {
        assert p[1] == '{' && (i + 1 < |w + rest| ==> (w + rest)[i..][1] != '{');
      }
    }
    CopyText(w, rest, p, value);
  }

  lemma DifferentParams(name: string, other: string, rest: string)
    requires NoBraces(name) && NoBraces(other) && name != other
    ensures !(ParamText(name) <= ParamText(other) + rest)
  {
    var p, s := ParamText(name), ParamText(other) + rest;
    if |name| < |other| {
      assert s[2 + |name|] == other[|name|] && p[2 + |name|] == '}';
    } else if |other| < |name| {
      assert p[2 + |other|] == name[|other|] && s[2 + |other|] == '}';
    } else {
      var k :| 0 <= k < |name| && name[k] != other[k];
      assert p[2 + k] == name[k] && s[2 + k] == other[k];
    }
  }

  lemma ReplaceHere(name: string, rest: string, value: string)
    ensures ReplaceAll(ParamText(name) + rest, ParamText(name), value) ==
            value + ReplaceAll(rest, ParamText(name), value)
  {
    assert (ParamText(name) + rest)[|ParamText(name)|..] == rest;
  }

  predicate Occurs(pattern: string, s: string)
  {
    exists k :: 0 <= k < |s| && pattern <= s[k..]
  }

  lemma AbsentInSuffix(pattern: string, a: string, b: string)
    requires !Occurs(pattern, a + b)
    ensures !Occurs(pattern, b)
  {
    forall k | 0 <= k < |b| ensures !(pattern <= b[k..]) {
      assert (a + b)[|a| + k..] == b[k..];
    }
  }

  /** fin is cur with the parameters left in it replaced. */
  ghost predicate Resolves(cur: seq<Segment>, fin: seq<Segment>)
  {
    |fin| == |cur| && forall i :: 0 <= i < |cur| ==> GoodSegment(cur[i]) && (cur[i].Param? || fin[i] == cur[i])
  }

  lemma ResolvesTail(cur: seq<Segment>, fin: seq<Segment>)
    requires Resolves(cur, fin) && cur != []
    ensures Resolves(cur[1..], fin[1..]) && GoodSegment(cur[0]) && (cur[0].Param? || fin[0] == cur[0])
  {
  }

  lemma TailCons(segs: seq<Segment>)
    requires segs != []
    ensures Tail(segs) == "." + segs[0].Text() + Tail(segs[1..])
  {
    assert "." + segs[0].Text() + Tail(segs[1..]) == "." + (segs[0].Text() + Tail(segs[1..]));
  }

  /** A rest of a parameter's text behind its opening. */
  predicate Closing(q: string)
  {
    '{' !in q && (q != [] ==> q[|q| - 1] == '}')
  }

  /** Such a rest does not reach into a parameter. */
  lemma EndsBeforeParam(q: string, name: string, rest: string)
    requires Closing(q) && q != []
    ensures !(q <= "." + ParamText(name) + rest)
  {
    var s := "." + ParamText(name) + rest;
    assert s[0] == '.' && s[1] == '$' && s[2] == '{';
    assert |q| > 2 ==> q[2] != '{';
  }

  lemma SharedHead(q: string, head: string, a: string, b: string)
    requires q <= head + a && (|q| > |head| ==> q[|head|..] <= b)
    ensures q <= head + b
  {
    if |q| > |head| {
      PrefixOfSum(q, head, a);
      PrefixOfSum(q, head, b);
    } else {
      assert q == (head + a)[..|q|] == head[..|q|];
    }
  }

  lemma RestMatches(q: string, head: string, tail: string)
    requires Closing(q) && |q| > |head| && q <= head + tail
    ensures Closing(q[|head|..]) && q[|head|..] <= tail
  {
    PrefixOfSum(q, head, tail);
  }

  /** A rest met before a parameter that is left is met when that one is replaced too. */
  lemma {:induction false} MatchIsFinal(q: string, cur: seq<Segment>, fin: seq<Segment>)
    requires Resolves(cur, fin) && Closing(q) && q <= Tail(cur)
    ensures q <= Tail(fin)
  {
    if cur != [] && q != [] {
      ResolvesTail(cur, fin);
      TailCons(cur);
      TailCons(fin);
      if cur[0].Param? {
        EndsBeforeParam(q, cur[0].name, Tail(cur[1..]));
      } else {
        var head := "." + cur[0].Text();
        if |q| > |head| {
          RestMatches(q, head, Tail(cur[1..]));
          MatchIsFinal(q[|head|..], cur[1..], fin[1..]);
        }
        SharedHead(q, head, Tail(cur[1..]), Tail(fin[1..]));
      }
    }
  }

  lemma PrefixOfSum(q: string, a: string, b: string)
    requires |q| >= |a|
    ensures q <= a + b <==> a <= q && q[|a|..] <= b
  {
    if q <= a + b {
      assert q == (a + b)[..|q|];
      assert q[..|a|] == a && q[|a|..] == b[..|q| - |a|];
    }
    if a <= q && q[|a|..] <= b {
      assert q == a + q[|a|..] && q[|a|..] == b[..|q| - |a|];
      assert q == (a + b)[..|q|];
    }
  }

  lemma NoParamAfterOne(w: string, name: string, cur: seq<Segment>)
    requires |w| == 1
    ensures !(ParamText(name) <= w + Tail(cur))
  {
    assert ParamText(name)[1] == '{';
    if cur != [] { assert (w + Tail(cur))[1] == '.'; }
  }

  lemma RestIsClosing(name: string, k: nat)
    requires NoBraces(name) && 2 <= k < |ParamText(name)|
    ensures Closing(ParamText(name)[k..])
  {
    assert ParamText(name)[k..] == (name + "}")[k - 2..];
  }

  /** A parameter that starts in a value starts there in the end as well. */
  lemma StartIsFinal(w: string, name: string, cur: seq<Segment>, fin: seq<Segment>)
    requires Resolves(cur, fin) && NoBraces(name) && w != [] && ParamText(name) <= w + Tail(cur)
    ensures ParamText(name) <= w + Tail(fin)
  {
    var p := ParamText(name);
    if |p| <= |w| {
      assert p == (w + Tail(cur))[..|p|] == w[..|p|];
    } else {
      if |w| == 1 { NoParamAfterOne(w, name, cur); }
      PrefixOfSum(p, w, Tail(cur));
      RestIsClosing(name, |w|);
      MatchIsFinal(p[|w|..], cur, fin);
      PrefixOfSum(p, w, Tail(fin));
    }
  }

  lemma CopyValue(v: string, name: string, value: string, cur: seq<Segment>, fin: seq<Segment>)
    requires Resolves(cur, fin) && NoBraces(name) && !Occurs(ParamText(name), v + Tail(fin))
    ensures ReplaceAll(v + Tail(cur), ParamText(name), value) == v + ReplaceAll(Tail(cur), ParamText(name), value)
  {
    var p := ParamText(name);
    forall i | 0 <= i < |v| ensures !(p <= (v + Tail(cur))[i..]) {
      assert (v + Tail(cur))[i..] == v[i..] + Tail(cur) && (v + Tail(fin))[i..] == v[i..] + Tail(fin);
      if p <= v[i..] + Tail(cur) { StartIsFinal(v[i..], name, cur, fin); }
    }
    CopyText(v, Tail(cur), p, value);
  }

  lemma {:induction false} ReplaceSegment(cur: seq<Segment>, fin: seq<Segment>, name: string, value: string)
    requires Resolves(cur, fin) && cur != [] && PlainName(name) && !Occurs(ParamText(name), Render(fin))
    ensures ReplaceAll(Render(cur), ParamText(name), value) ==
            Put(cur[0], name, value).Text() + ReplaceAll(Tail(cur[1..]), ParamText(name), value)
  {
    ResolvesTail(cur, fin);
    var rest := Tail(cur[1..]);
    match cur[0]
    case Word(t) =>
      assert forall i :: 0 <= i < |t| ==> IsWordChar(t[i]);
      CopyPlain(t, rest, name, value);
    case Value(v) => CopyValue(v, name, value, cur[1..], fin[1..]);
    case Param(n) => if n == name { ReplaceHere(name, rest, value); } else { CopyOtherParam(n, rest, name, value); }
  }

  lemma AbsentInRest(segs: seq<Segment>, name: string)
    requires segs != [] && !Occurs(ParamText(name), Render(segs))
    ensures !Occurs(ParamText(name), Render(segs[1..]))
  {
    AbsentInSuffix(ParamText(name), segs[0].Text(), Tail(segs[1..]));
    if segs[1..] != [] { AbsentInSuffix(ParamText(name), ".", Render(segs[1..])); }
  }

  lemma PutCons(segs: seq<Segment>, name: string, value: string)
    requires segs != []
    ensures PutAll(segs, name, value) != [] && PutAll(segs, name, value)[0] == Put(segs[0], name, value)
    ensures PutAll(segs, name, value)[1..] == PutAll(segs[1..], name, value)
  {
  }

  /** ReplaceAll on a rendered template replaces exactly the segments of a parameter that is not met in the end. */
  lemma {:induction false} ReplaceRendered(cur: seq<Segment>, fin: seq<Segment>, name: string, value: string)
    requires Resolves(cur, fin) && PlainName(name) && !Occurs(ParamText(name), Render(fin))
    ensures ReplaceAll(Render(cur), ParamText(name), value) == Render(PutAll(cur, name, value))
    ensures ReplaceAll(Tail(cur), ParamText(name), value) == Tail(PutAll(cur, name, value))
  {
    if cur != [] {
      ResolvesTail(cur, fin);
      AbsentInRest(fin, name);
      ReplaceRendered(cur[1..], fin[1..], name, value);
      ReplaceSegment(cur, fin, name, value);
      PutCons(cur, name, value);
      CopyPlain(".", Render(cur), name, value);
    }
  }

  // ----- substituting all parameters -----

  /** Every name has a value the substitution accepts. */
  ghost predicate Accepted(names: seq<string>, values: map<string, string>)
  {
    forall i :: 0 <= i < |names| ==> names[i] in values && ValidToken(values[names[i]])
  }

  /** And no value opens a parameter of its own. */
  ghost predicate Inert(names: seq<string>, values: map<string, string>)
  {
    Accepted(names, values) && forall i :: 0 <= i < |names| ==> NoOpening(values[names[i]])
  }

  /** The segments after the parameters among names are replaced. */
  function Substitute(segs: seq<Segment>, names: seq<string>, values: map<string, string>): seq<Segment>
  {
    seq(|segs|, i requires 0 <= i < |segs| =>
      if segs[i].Param? && segs[i].name in names && segs[i].name in values then Value(values[segs[i].name])
      else segs[i])
  }

  lemma {:induction false} NamesArePlain(segs: seq<Segment>)
    requires IsTemplate(segs)
    ensures forall i :: 0 <= i < |NamesOf(segs)| ==> PlainName(NamesOf(segs)[i])
    ensures forall i :: 0 <= i < |segs| && segs[i].Param? ==> segs[i].name in NamesOf(segs)
  {
    if segs != [] {
      NamesArePlain(segs[1..]);
      assert forall i :: 0 < i < |segs| ==> segs[i] == segs[1..][i - 1];
      var ns := NamesOf(segs[1..]);
      assert NamesOf(segs) == (if segs[0].Param? then [segs[0].name] else []) + ns;
    }
  }

  /** No text of a parameter is left, or arises, in the intended subject. */
  ghost predicate Quiet(segs: seq<Segment>, values: map<string, string>)
  {
    var names := NamesOf(segs);
    && Accepted(names, values)
    && forall i :: 0 <= i < |names| ==> !Occurs(ParamText(names[i]), Render(Substituted(segs, values)))
  }

  lemma SubstituteResolves(segs: seq<Segment>, names: seq<string>, values: map<string, string>)
    requires IsTemplate(segs) && forall i :: 0 <= i < |names| ==> names[i] in NamesOf(segs)
    ensures Resolves(Substitute(segs, names, values), Substituted(segs, values))
  {
    var cur := Substitute(segs, names, values);
    forall i | 0 <= i < |segs|
      ensures GoodSegment(cur[i]) && (cur[i].Param? || Substituted(segs, values)[i] == cur[i])
    {
      assert GoodSegment(segs[i]) && !segs[i].Value?;
    }
  }

  lemma PutOneMore(segs: seq<Segment>, names: seq<string>, name: string, values: map<string, string>)
    requires IsTemplate(segs) && name in values
    ensures PutAll(Substitute(segs, names, values), name, values[name]) == Substitute(segs, names + [name], values)
  {
    var before, after := Substitute(segs, names, values), Substitute(segs, names + [name], values);
    forall i | 0 <= i < |segs| ensures Put(before[i], name, values[name]) == after[i] {
      assert !segs[i].Value?;
    }
  }

  lemma SubstituteStep(segs: seq<Segment>, init: seq<string>, name: string, values: map<string, string>)
    requires IsTemplate(segs) && Quiet(segs, values) && name in NamesOf(segs)
    requires forall i :: 0 <= i < |init| ==> init[i] in NamesOf(segs)
    ensures name in values && ValidToken(values[name])
    ensures ReplaceAll(Render(Substitute(segs, init, values)), ParamText(name), values[name]) ==
            Render(Substitute(segs, init + [name], values))
  {
    var k :| 0 <= k < |NamesOf(segs)| && NamesOf(segs)[k] == name;
    NamesArePlain(segs);
    SubstituteResolves(segs, init, values);
    ReplaceRendered(Substitute(segs, init, values), Substituted(segs, values), name, values[name]);
    PutOneMore(segs, init, name, values);
  }

  lemma {:induction false} SubstituteEach(segs: seq<Segment>, names: seq<string>, values: map<string, string>)
    requires IsTemplate(segs) && Quiet(segs, values) && forall i :: 0 <= i < |names| ==> names[i] in NamesOf(segs)
    ensures ReplaceEach(names, Render(segs), values) == Some(Render(Substitute(segs, names, values)))
  {
    if names == [] {
      assert Substitute(segs, names, values) == segs;
    } else {
      var init, name := names[..|names| - 1], names[|names| - 1];
      SubstituteEach(segs, init, values);
      assert names == init + [name];
      SubstituteStep(segs, init, name, values);
    }
  }

  /** Then ReplaceTokens puts each value in the place of its parameter. */
  lemma QuietSubstitution(segs: seq<Segment>, values: map<string, string>)
    requires IsTemplate(segs) && Quiet(segs, values)
    ensures ReplaceEach(FindParams(Render(segs)), Render(segs), values) == Some(Render(Substituted(segs, values)))
  {
    FindTail(segs);
    SubstituteEach(segs, NamesOf(segs), values);
  }

  lemma {:induction false} NoOpeningRender(segs: seq<Segment>)
    requires forall i :: 0 <= i < |segs| ==> NoOpening(segs[i].Text())
    ensures NoOpening(Render(segs)) && NoOpening(Tail(segs))
  {
    if segs != [] {
      NoOpeningRender(segs[1..]);
      NoOpeningSum(segs[0].Text(), Tail(segs[1..]));
      NoOpeningSum(".", Render(segs));
    }
  }

  lemma NoOpeningSum(a: string, b: string)
    requires NoOpening(a) && NoOpening(b) && (b != [] ==> b[0] != '{' || (a != [] && a[|a| - 1] != '$'))
    ensures NoOpening(a + b)
  {
    forall i | 0 <= i < |a + b| - 1 ensures !((a + b)[i] == '$' && (a + b)[i + 1] == '{') {
      if i >= |a| { assert (a + b)[i] == b[i - |a|] && (a + b)[i + 1] == b[i - |a| + 1]; }
    }
  }

  lemma NoOpeningIsAbsent(s: string, name: string)
    requires NoOpening(s)
    ensures !Occurs(ParamText(name), s)
  {
    var p := ParamText(name);
    forall k | 0 <= k < |s| ensures !(p <= s[k..]) {
      assert s[k..][0] == s[k] && p[0] == '$' && p[1] == '{';
      if k + 1 < |s| { assert s[k..][1] == s[k + 1]; }
    }
  }

  /** In particular when no value opens a parameter. */
  lemma InertIsQuiet(segs: seq<Segment>, values: map<string, string>)
    requires IsTemplate(segs) && Inert(NamesOf(segs), values)
    ensures Quiet(segs, values)
  {
    var out := Substituted(segs, values);
    NamesArePlain(segs);
    forall i | 0 <= i < |segs| ensures NoOpening(out[i].Text()) {
      assert GoodSegment(segs[i]) && !segs[i].Value?;
      if segs[i].Param? {
        var k :| 0 <= k < |NamesOf(segs)| && NamesOf(segs)[k] == segs[i].name;
        assert NoOpening(values[NamesOf(segs)[k]]);
      }
    }
    NoOpeningRender(out);
    forall i | 0 <= i < |NamesOf(segs)| { NoOpeningIsAbsent(Render(out), NamesOf(segs)[i]); }
  }

  function Substituted(segs: seq<Segment>, values: map<string, string>): seq<Segment>
  {
    Substitute(segs, NamesOf(segs), values)
  }

  // ----- the round trip -----

  /** Texts that can stand in one segment, for every name. */
  ghost predicate Segmented(names: seq<string>, values: map<string, string>)
  {
    forall i :: 0 <= i < |names| ==> names[i] in values && values[names[i]] != "" && '.' !in values[names[i]]
  }

  lemma {:induction false} SubstitutedIsPlain(segs: seq<Segment>, values: map<string, string>)
    requires IsTemplate(segs) && Segmented(NamesOf(segs), values)
    ensures PlainSegments(Texts(Substituted(segs, values)))
    ensures forall i :: 0 <= i < |segs| && segs[i].Param? ==> segs[i].name in NamesOf(segs) && segs[i].name in values
  {
    var out := Substituted(segs, values);
    NamesArePlain(segs);
    forall i | 0 <= i < |segs|
      ensures out[i].Text() != "" && '.' !in out[i].Text() && (segs[i].Param? ==> segs[i].name in values)
    {
      assert GoodSegment(segs[i]) && !segs[i].Value?;
      if segs[i].Param? {
        var k :| 0 <= k < |NamesOf(segs)| && NamesOf(segs)[k] == segs[i].name;
        assert values[NamesOf(segs)[k]] != "";
      }
    }
  }

  /** The parameters of a template with their values. */
  ghost function Params(segs: seq<Segment>, values: map<string, string>): map<string, string>
  {
    map n | n in NamesOf(segs) && n in values :: values[n]
  }

  lemma ParamTextIsParameter(name: string)
    ensures IsParameterToken(ParamText(name)) && ParamText(name)[2..|ParamText(name)| - 1] == name
  {
  }

  /** The parameters among the first n segments. */
  ghost function ParamsUpTo(segs: seq<Segment>, values: map<string, string>, n: nat): map<string, string>
    requires n <= |segs|
  {
    if n == 0 then map[]
    else if segs[n - 1].Param? && segs[n - 1].name in values then
      ParamsUpTo(segs, values, n - 1)[segs[n - 1].name := values[segs[n - 1].name]]
    else ParamsUpTo(segs, values, n - 1)
  }

  lemma {:induction false} ParamsUpToMembers(segs: seq<Segment>, values: map<string, string>, n: nat, name: string)
    requires n <= |segs|
    ensures name in ParamsUpTo(segs, values, n) <==> name in values && exists i :: 0 <= i < n && segs[i] == Param(name)
    ensures name in ParamsUpTo(segs, values, n) ==> ParamsUpTo(segs, values, n)[name] == values[name]
  {
    if n > 0 { ParamsUpToMembers(segs, values, n - 1, name); }
  }

  lemma ParamsUpToEnd(segs: seq<Segment>, values: map<string, string>)
    requires IsTemplate(segs)
    ensures ParamsUpTo(segs, values, |segs|) == Params(segs, values)
  {
    NamesArePlain(segs);
    NamesAreParams(segs);
    forall name
      ensures name in ParamsUpTo(segs, values, |segs|) <==> name in Params(segs, values)
      ensures name in Params(segs, values) ==> ParamsUpTo(segs, values, |segs|)[name] == values[name]
    {
      ParamsUpToMembers(segs, values, |segs|, name);
    }
  }

  /** One more token matched: a word against itself, a parameter against its value. */
  lemma MatchOne(tokens: seq<string>, route: seq<string>, n: nat, seg: Segment, before: map<string, string>)
    requires n < |tokens| == |route| && GoodSegment(seg) && !seg.Value? && tokens[n] == seg.Text()
    requires seg.Word? ==> route[n] == tokens[n]
    requires MatchTokens(tokens, route, n) == Some(before)
    ensures MatchTokens(tokens, route, n + 1) == Some(if seg.Param? then before[seg.name := route[n]] else before)
  {
    if seg.Param? { ParamTextIsParameter(seg.name); } else { assert IsWordChar(seg.text[0]); }
  }

  lemma SubstitutedText(segs: seq<Segment>, values: map<string, string>, i: nat)
    requires i < |segs| && (segs[i].Param? ==> segs[i].name in NamesOf(segs) && segs[i].name in values)
    ensures Texts(Substituted(segs, values))[i] == if segs[i].Param? then values[segs[i].name] else segs[i].Text()
  {
  }

  lemma {:induction false} MatchSubstituted(segs: seq<Segment>, values: map<string, string>, n: nat)
    requires IsTemplate(segs) && n <= |segs|
    requires forall i :: 0 <= i < |segs| && segs[i].Param? ==> segs[i].name in NamesOf(segs) && segs[i].name in values
    ensures MatchTokens(Texts(segs), Texts(Substituted(segs, values)), n) == Some(ParamsUpTo(segs, values, n))
  {
    if n > 0 {
      MatchSubstituted(segs, values, n - 1);
      assert GoodSegment(segs[n - 1]) && !segs[n - 1].Value?;
      SubstitutedText(segs, values, n - 1);
      MatchOne(Texts(segs), Texts(Substituted(segs, values)), n - 1, segs[n - 1], ParamsUpTo(segs, values, n - 1));
    }
  }

  lemma {:induction false} NamesAreParams(segs: seq<Segment>)
    ensures forall n :: n in NamesOf(segs) ==> exists i :: 0 <= i < |segs| && segs[i] == Param(n)
  {
    if segs != [] {
      NamesAreParams(segs[1..]);
      forall n | n in NamesOf(segs) ensures exists i :: 0 <= i < |segs| && segs[i] == Param(n) {
        if segs[0] == Param(n) {
        } else {
          assert n in NamesOf(segs[1..]);
          var i :| 0 <= i < |segs[1..]| && segs[1..][i] == Param(n);
          assert segs[i + 1] == Param(n);
        }
      }
    }
  }

  /** What extraction makes of a template with texts in the place of its parameters. */
  lemma ExtractSubstituted(segs: seq<Segment>, values: map<string, string>)
    requires IsTemplate(segs) && Segmented(NamesOf(segs), values)
    ensures var out := Substituted(segs, values);
            Extract(Render(out), Render(segs)) == if Balanced(Texts(out)) then Some(Params(segs, values)) else None
  {
    var out := Substituted(segs, values);
    SubstitutedIsPlain(segs, values);
    RenderIsJoin(out);
    ParseTemplate(segs);
    if Balanced(Texts(out)) {
      TokenizeJoinIff(Texts(out));
      MatchSubstituted(segs, values, |segs|);
      ParamsUpToEnd(segs, values);
    } else {
      UnbalancedIsShort(Texts(out));
    }
  }

  lemma AcceptedIsSegmented(names: seq<string>, values: map<string, string>)
    requires Accepted(names, values)
    ensures Segmented(names, values)
  {
    forall i | 0 <= i < |names| ensures values[names[i]] != "" && '.' !in values[names[i]] {
      assert ValidToken(values[names[i]]);
    }
  }

  lemma {:induction false} NoBracesBalance(s: string)
    requires NoBraces(s)
    ensures Balance(s) == 0
  {
    if s != [] { NoBracesBalance(s[1..]); }
  }

  lemma {:induction false} JoinIsInjective(a: seq<string>, b: seq<string>)
    requires PlainSegments(a) && PlainSegments(b) && Join(a) == Join(b)
    ensures a == b
  {
    if |a| <= 1 || |b| <= 1 {
      FewSegments(a, b);
    } else {
      assert a[0] in a && b[0] in b;
      FirstDot(a[0], Join(a[1..]));
      FirstDot(b[0], Join(b[1..]));
      var s := Join(a);
      assert |a[0]| == |b[0]|;
      assert s[..|a[0]|] == a[0] && s[..|b[0]|] == b[0];
      assert s[|a[0]| + 1..] == Join(a[1..]) && s[|b[0]| + 1..] == Join(b[1..]);
      assert (forall seg :: seg in a[1..] ==> seg in a) && (forall seg :: seg in b[1..] ==> seg in b);
      JoinIsInjective(a[1..], b[1..]);
      assert a == [a[0]] + a[1..] && b == [b[0]] + b[1..];
    }
  }

  lemma FewSegments(a: seq<string>, b: seq<string>)
    requires PlainSegments(a) && PlainSegments(b) && Join(a) == Join(b) && (|a| <= 1 || |b| <= 1)
    ensures a == b
  {
    if a != [] { HasDotIff(a); }
    if b != [] { HasDotIff(b); }
  }

  lemma HasDotIff(segs: seq<string>)
    requires PlainSegments(segs) && segs != []
    ensures Join(segs) != "" && ('.' in Join(segs) <==> |segs| > 1)
  {
    assert segs[0] in segs;
    if |segs| > 1 { assert Join(segs)[|segs[0]|] == '.'; }
  }

  lemma FirstDot(seg: string, rest: string)
    requires '.' !in seg
    ensures IndexOf(seg + "." + rest, '.') == |seg|
  {
    IndexOfIs(seg, '.', rest);
  }

  // ----- the reverse round trip -----

  /** Segments that stand for the same parameter are the same. */
  predicate RepeatsAgree(segs: seq<Segment>, route: seq<string>)
    requires |route| == |segs|
  {
    forall i, j :: 0 <= i < j < |segs| && segs[i].Param? && segs[i] == segs[j] ==> route[i] == route[j]
  }

  /** The segments of a route are the words of the template and, for its parameters, the values. */
  predicate Fits(segs: seq<Segment>, route: seq<string>, values: map<string, string>)
  {
    |route| == |segs| && forall i :: 0 <= i < |segs| ==>
      if segs[i].Param? then segs[i].name in values && values[segs[i].name] == route[i] else route[i] == segs[i].Text()
  }

  lemma TextIsParam(seg: Segment, name: string)
    requires GoodSegment(seg) && !seg.Value?
    ensures IsParameterToken(seg.Text()) <==> seg.Param?
    ensures seg.Text() == ParamText(name) <==> seg == Param(name)
  {
    if seg.Word? {
      assert IsWordChar(seg.text[0]);
    } else {
      ParamTextIsParameter(seg.name);
      ParamTextIsParameter(name);
    }
  }

  /** The last segment of a parameter that occurs is one of its segments. */
  lemma {:induction false} LastOccurrence(segs: seq<Segment>, route: seq<string>, n: nat, name: string, i: nat)
    returns (j: nat)
    requires IsTemplate(segs) && |route| == |segs| && i < n <= |segs| && segs[i] == Param(name)
    ensures j < n && segs[j] == Param(name) && LastSegment(Texts(segs), route, n, name) == Some(route[j])
  {
    assert GoodSegment(segs[n - 1]) && !segs[n - 1].Value?;
    TextIsParam(segs[n - 1], name);
    if segs[n - 1] == Param(name) { j := n - 1; } else { j := LastOccurrence(segs, route, n - 1, name, i); }
  }

  /** An extracted value is a segment of its parameter. */
  lemma ExtractedFrom(segs: seq<Segment>, route: string, m: map<string, string>, i: nat) returns (j: nat)
    requires IsTemplate(segs) && Extract(route, Render(segs)) == Some(m) && i < |segs| && segs[i].Param?
    ensures var tokens := Tokenize(route);
            |tokens| == |segs| && j < |segs| && segs[j] == segs[i] && segs[i].name in m && m[segs[i].name] == tokens[j]
  {
    ParseTemplate(segs);
    ExtractIff(route, Render(segs));
    j := LastOccurrence(segs, Tokenize(route), |segs|, segs[i].name, i);
  }

  /** A route that extraction accepts has the template's words in their places. */
  lemma ExtractedWords(segs: seq<Segment>, route: string, m: map<string, string>, i: nat)
    requires IsTemplate(segs) && Extract(route, Render(segs)) == Some(m) && i < |segs| && !segs[i].Param?
    ensures |Tokenize(route)| == |segs| && Tokenize(route)[i] == segs[i].Text()
  {
    ParseTemplate(segs);
    ExtractIff(route, Render(segs));
    assert GoodSegment(segs[i]) && !segs[i].Value?;
    TextIsParam(segs[i], "");
    assert Texts(segs)[i] == segs[i].Text();
  }

  lemma ExtractedLength(segs: seq<Segment>, route: string, m: map<string, string>)
    requires IsTemplate(segs) && Extract(route, Render(segs)) == Some(m)
    ensures |Tokenize(route)| == |segs|
  {
    ParseTemplate(segs);
  }

  /** The extracted values fit the route exactly when the segments of a repeated parameter agree. */
  lemma ExtractedFitsIff(segs: seq<Segment>, route: string, m: map<string, string>)
    requires IsTemplate(segs) && Extract(route, Render(segs)) == Some(m)
    ensures |Tokenize(route)| == |segs|
    ensures Fits(segs, Tokenize(route), m) <==> RepeatsAgree(segs, Tokenize(route))
  {
    ExtractedLength(segs, route, m);
    if RepeatsAgree(segs, Tokenize(route)) {
      forall i | 0 <= i < |segs|
        ensures if segs[i].Param? then segs[i].name in m && m[segs[i].name] == Tokenize(route)[i]
                else Tokenize(route)[i] == segs[i].Text()
      {
        if segs[i].Param? { var j := ExtractedFrom(segs, route, m, i); } else { ExtractedWords(segs, route, m, i); }
      }
    }
  }

  lemma FitsIsSubstituted(segs: seq<Segment>, route: seq<string>, values: map<string, string>)
    requires IsTemplate(segs) && Segmented(NamesOf(segs), values) && |route| == |segs|
    ensures Fits(segs, route, values) <==> Texts(Substituted(segs, values)) == route
  {
    SubstitutedIsPlain(segs, values);
    forall i | 0 <= i < |segs| { SubstitutedText(segs, values, i); }
  }

  /**
   Texts put in the place of the parameters give a route back exactly when they fit
   it and the route has no empty segment.
   */
  lemma RebuiltIff(segs: seq<Segment>, route: string, values: map<string, string>)
    requires IsTemplate(segs) && Segmented(NamesOf(segs), values) && |Tokenize(route)| == |segs|
    ensures Render(Substituted(segs, values)) == route <==>
            Fits(segs, Tokenize(route), values) && Join(Tokenize(route)) == route
  {
    var texts := Texts(Substituted(segs, values));
    RenderIsJoin(Substituted(segs, values));
    SubstitutedIsPlain(segs, values);
    FitsIsSubstituted(segs, Tokenize(route), values);
    if Join(texts) == route {
      if !Balanced(texts) { UnbalancedIsShort(texts); }
      TokenizeJoinIff(texts);
    }
  }
}
