/** What ReplaceTokens makes of a template for every accepted value, also of values that open a parameter themselves. */
module SubjectExpansion {
  import opened Wrappers
  import opened Subjects
  import opened SubjectTemplates

  // ----- one replacement, segment by segment -----

  /** A parameter that is left, or a text that can stand in one segment. */
  predicate IsPiece(seg: Segment)
  {
    if seg.Param? then PlainName(seg.name) else seg.Text() != "" && '.' !in seg.Text()
  }

  ghost predicate Pieces(segs: seq<Segment>)
  {
    forall i :: 0 <= i < |segs| ==> IsPiece(segs[i])
  }

  lemma TemplateIsPieces(segs: seq<Segment>)
    requires IsTemplate(segs)
    ensures Pieces(segs)
  {
    forall i | 0 <= i < |segs| ensures IsPiece(segs[i]) {
      assert GoodSegment(segs[i]) && !segs[i].Value?;
    }
  }

  lemma PiecesCons(segs: seq<Segment>)
    requires Pieces(segs) && segs != []
    ensures IsPiece(segs[0]) && Pieces(segs[1..])
  {
  }

  /** The text of a parameter starts in w and reaches beyond it. */
  predicate StartsIn(w: string, rest: seq<Segment>, name: string)
  {
    exists j :: 0 <= j < |w| && |w| - j < |ParamText(name)| && ParamText(name) <= w[j..] + Tail(rest)
  }

  /** The text of a parameter is spelled across a separator. */
  predicate Crosses(segs: seq<Segment>, name: string)
  {
    segs != [] && (StartsIn(segs[0].Text(), segs[1..], name) || Crosses(segs[1..], name))
  }

  /** The segment after one parameter is replaced in it. */
  function Renewed(seg: Segment, name: string, value: string): Segment
  {
    if seg.Param? then Put(seg, name, value) else Value(ReplaceAll(seg.Text(), ParamText(name), value))
  }

  function RenewAll(segs: seq<Segment>, name: string, value: string): seq<Segment>
  {
    seq(|segs|, i requires 0 <= i < |segs| => Renewed(segs[i], name, value))
  }

  lemma StartsLater(w: string, k: nat, rest: seq<Segment>, name: string)
    requires k <= |w| && StartsIn(w[k..], rest, name)
    ensures StartsIn(w, rest, name)
  {
    var j :| 0 <= j < |w[k..]| && |w[k..]| - j < |ParamText(name)| && ParamText(name) <= w[k..][j..] + Tail(rest);
    assert w[k..][j..] == w[k + j..];
  }

  lemma WithinIff(w: string, rest: string, pattern: string)
    requires |pattern| <= |w|
    ensures pattern <= w + rest <==> pattern <= w
  {
    assert (w + rest)[..|pattern|] == w[..|pattern|];
  }

  lemma AddMore(a: string, b: string, c: string)
    ensures a + (b + c) == a + b + c
  {
  }

  /** Nothing that starts in w reaches beyond it, so w is replaced by itself. */
  lemma {:induction false} ReplaceWithin(w: string, rest: seq<Segment>, name: string, value: string)
    requires !StartsIn(w, rest, name)
    ensures ReplaceAll(w + Tail(rest), ParamText(name), value) ==
            ReplaceAll(w, ParamText(name), value) + ReplaceAll(Tail(rest), ParamText(name), value)
    decreases |w|
  {
    var p, tail := ParamText(name), Tail(rest);
    if w == [] {
      assert w + tail == tail;
    } else {
      assert w[0..] == w && (|p| <= |w| || !(p <= w[0..] + tail));
      if |p| <= |w| { WithinIff(w, tail, p); }
      var k := if p <= w then |p| else 1;
      assert (w + tail)[k..] == w[k..] + tail && (w + tail)[0] == w[0];
      if StartsIn(w[k..], rest, name) { StartsLater(w, k, rest, name); }
      ReplaceWithin(w[k..], rest, name, value);
      AddMore(if p <= w then value else [w[0]], ReplaceAll(w[k..], p, value), ReplaceAll(tail, p, value));
    }
  }

  lemma ReplaceSeparator(segs: seq<Segment>, name: string, value: string)
    requires segs != []
    ensures ReplaceAll(Tail(segs), ParamText(name), value) == "." + ReplaceAll(Render(segs), ParamText(name), value)
  {
    CopyPlain(".", Render(segs), name, value);
  }

  lemma ReplaceParam(n: string, rest: seq<Segment>, name: string, value: string)
    requires PlainName(n) && PlainName(name)
    ensures ReplaceAll(ParamText(n) + Tail(rest), ParamText(name), value) ==
            Put(Param(n), name, value).Text() + ReplaceAll(Tail(rest), ParamText(name), value)
  {
    if n == name { ReplaceHere(name, Tail(rest), value); } else { CopyOtherParam(n, Tail(rest), name, value); }
  }

  lemma RenewCons(segs: seq<Segment>, name: string, value: string)
    requires segs != []
    ensures RenewAll(segs, name, value) == [Renewed(segs[0], name, value)] + RenewAll(segs[1..], name, value)
  {
  }

  lemma RenderCons(seg: Segment, segs: seq<Segment>)
    ensures Render([seg] + segs) == seg.Text() + Tail(segs) && Tail([seg] + segs) == "." + (seg.Text() + Tail(segs))
  {
    assert ([seg] + segs)[1..] == segs;
  }

  /** Without a crossing each segment is replaced by itself. */
  lemma {:induction false} ReplaceUncrossed(segs: seq<Segment>, name: string, value: string)
    requires Pieces(segs) && PlainName(name) && !Crosses(segs, name)
    ensures ReplaceAll(Render(segs), ParamText(name), value) == Render(RenewAll(segs, name, value))
    ensures ReplaceAll(Tail(segs), ParamText(name), value) == Tail(RenewAll(segs, name, value))
  {
    if segs != [] {
      PiecesCons(segs);
      ReplaceUncrossed(segs[1..], name, value);
      if segs[0].Param? {
        ReplaceParam(segs[0].name, segs[1..], name, value);
      } else {
        ReplaceWithin(segs[0].Text(), segs[1..], name, value);
      }
      RenewCons(segs, name, value);
      RenderCons(Renewed(segs[0], name, value), RenewAll(segs[1..], name, value));
      ReplaceSeparator(segs, name, value);
    }
  }

  // ----- a crossing merges segments -----

  /** What is left of the segments after a text that starts before them and ends in one of them. */
  lemma {:induction false} Consume(q: string, segs: seq<Segment>) returns (j: nat, w: string)
    requires Pieces(segs) && Closing(q) && q != [] && q <= Tail(segs)
    ensures j < |segs| && '.' !in w && Tail(segs)[|q|..] == w + Tail(segs[j + 1..])
  {
    if segs == [] { assert false; }
    PiecesCons(segs);
    TailCons(segs);
    var head := "." + segs[0].Text();
    if segs[0].Param? { EndsBeforeParam(q, segs[0].name, Tail(segs[1..])); }
    if |q| > |head| {
      RestMatches(q, head, Tail(segs[1..]));
      DropSum(head, Tail(segs[1..]), |q|);
      j, w := Consume(q[|head|..], segs[1..]);
      assert segs[1..][j + 1..] == segs[j + 2..];
      j := j + 1;
    } else {
      j, w := 0, head[|q|..];
      DropFirst(head, Tail(segs[1..]), |q|);
      DropDot(segs[0].Text(), |q|);
    }
  }

  lemma DropDot(text: string, k: nat)
    requires 0 < k <= |text| + 1 && '.' !in text
    ensures '.' !in ("." + text)[k..]
  {
    assert ("." + text)[k..] == text[k - 1..];
  }

  lemma DropSum(a: string, b: string, k: nat)
    requires |a| <= k <= |a| + |b|
    ensures (a + b)[k..] == b[k - |a|..]
  {
  }

  /** The text of a parameter that starts at the front of w and reaches beyond it ends in a later text. */
  lemma ConsumeFrom(w: string, segs: seq<Segment>, name: string) returns (j: nat, v: string)
    requires Pieces(segs) && NoBraces(name) && w != [] && |w| < |ParamText(name)| && ParamText(name) <= w + Tail(segs)
    ensures j < |segs| && '.' !in v && (w + Tail(segs))[|ParamText(name)|..] == v + Tail(segs[j + 1..])
  {
    var p := ParamText(name);
    if |w| == 1 { NoParamAfterOne(w, name, segs); }
    PrefixOfSum(p, w, Tail(segs));
    RestIsClosing(name, |w|);
    j, v := Consume(p[|w|..], segs);
    DropSum(w, Tail(segs), |p|);
  }

  /** Two texts of one parameter do not overlap. */
  lemma NoOverlap(w: string, k: nat, rest: string, name: string)
    requires NoBraces(name) && 0 < k < |ParamText(name)| && k <= |w| && ParamText(name) <= w + rest
    ensures !(ParamText(name) <= (w + rest)[k..])
  {
    var p, s := ParamText(name), w + rest;
    assert forall i :: 0 <= i < |p| ==> s[i] == p[i];
    if k + 1 < |p| {
      assert p[k + 1] != '{' && s[k..][1] == s[k + 1];
    } else {
      assert s[k..][0] == s[k] == '}';
    }
  }

  /** Nothing starts between the front of w and the end of the text of a parameter found there. */
  lemma StartsBehind(w: string, k: nat, rest: seq<Segment>, name: string)
    requires NoBraces(name) && StartsIn(w, rest, name) && 0 < k <= |w|
    requires if ParamText(name) <= w + Tail(rest) then k == |ParamText(name)| else k == 1
    ensures StartsIn(w[k..], rest, name)
  {
    var p := ParamText(name);
    var j :| 0 <= j < |w| && |w| - j < |p| && p <= w[j..] + Tail(rest);
    DropFirst(w, Tail(rest), j);
    if j < k { NotInBetween(w, j, k, Tail(rest), name); }
    assert w[k..][j - k..] == w[j..];
  }

  lemma DropFirst(a: string, b: string, k: nat)
    requires k <= |a|
    ensures (a + b)[k..] == a[k..] + b
  {
  }

  lemma NotInBetween(w: string, j: nat, k: nat, rest: string, name: string)
    requires NoBraces(name) && j < k <= |w|
    requires if ParamText(name) <= w + rest then k == |ParamText(name)| else k == 1
    ensures ParamText(name) <= (w + rest)[j..] ==> |ParamText(name)| <= |w| - j
  {
    if j == 0 {
      assert (w + rest)[0..] == w + rest;
    } else {
      NoOverlap(w, j, rest, name);
    }
  }

  /** A parameter's own text starts no other one. */
  lemma NothingStartsInParam(n: string, rest: seq<Segment>, name: string)
    requires PlainName(n) && PlainName(name)
    ensures !StartsIn(ParamText(n), rest, name)
  {
    var p, w := ParamText(name), ParamText(n);
    forall j | 0 <= j < |w| && |w| - j < |p| ensures !(p <= w[j..] + Tail(rest)) {
      if j == 0 {
        assert w[0..] == w;
        DifferentParams(name, n, Tail(rest));
      } else {
        assert p[1] == '{';
        assert j + 1 < |w| ==> (w[j..] + Tail(rest))[1] == w[j + 1] != '{';
        assert j + 1 == |w| && rest != [] ==> (w[j..] + Tail(rest))[1] == '.';
      }
    }
  }

  /** The parameters in next are parameters of segs other than name. */
  ghost predicate Leaves(segs: seq<Segment>, next: seq<Segment>, name: string)
  {
    forall i :: 0 <= i < |next| && next[i].Param? ==> next[i] in segs && next[i].name != name
  }

  lemma LeavesCons(seg: Segment, segs: seq<Segment>, head: Segment, next: seq<Segment>, name: string)
    requires Leaves(segs, next, name) && Pieces(next) && IsPiece(head)
    requires head.Param? ==> head == seg && head.name != name
    ensures Leaves([seg] + segs, [head] + next, name) && Pieces([head] + next)
  {
  }

  /** What one step of the replacement writes, and how far it reads. */
  function Written(s: string, pattern: string, value: string): string
    requires s != []
  {
    if pattern <= s then value else [s[0]]
  }

  function Stride(s: string, pattern: string): nat
  {
    if pattern <= s then |pattern| else 1
  }

  lemma ReplaceOn(s: string, pattern: string, value: string, h: string, tail: string)
    requires pattern != [] && s != []
    requires ReplaceAll(s[Stride(s, pattern)..], pattern, value) == h + tail
    ensures ReplaceAll(s, pattern, value) == Written(s, pattern, value) + h + tail
  {
    AddMore(Written(s, pattern, value), h, tail);
  }

  lemma LeavesMore(segs: seq<Segment>, k: nat, next: seq<Segment>, name: string)
    requires k <= |segs| && Leaves(segs[k..], next, name)
    ensures Leaves(segs, next, name)
  {
  }

  lemma PiecesFrom(segs: seq<Segment>, k: nat)
    requires k <= |segs| && Pieces(segs)
    ensures Pieces(segs[k..])
  {
  }

  /** One replacement on a text and the segments behind it: crossings make them fewer. */
  lemma {:induction false} Scan(v: string, segs: seq<Segment>, name: string, value: string)
    returns (head: string, next: seq<Segment>)
    requires Pieces(segs) && PlainName(name) && value != "" && '.' !in value && '.' !in v
    ensures ReplaceAll(v + Tail(segs), ParamText(name), value) == head + Tail(next)
    ensures '.' !in head && (head == "" <==> v == "") && Pieces(next) && Leaves(segs, next, name)
    ensures |next| <= |segs| && (StartsIn(v, segs, name) || Crosses(segs, name) ==> |next| < |segs|)
    decreases |segs|, |v|, 1
  {
    if v == "" {
      head := "";
      next := ScanTail(segs, name, value);
      assert v + Tail(segs) == Tail(segs) && "" + Tail(next) == Tail(next);
    } else {
      head, next := ScanText(v, segs, name, value);
    }
  }

  lemma {:induction false} ScanText(v: string, segs: seq<Segment>, name: string, value: string)
    returns (head: string, next: seq<Segment>)
    requires Pieces(segs) && PlainName(name) && value != "" && '.' !in value && '.' !in v && v != ""
    ensures ReplaceAll(v + Tail(segs), ParamText(name), value) == head + Tail(next)
    ensures '.' !in head && head != "" && Pieces(next) && Leaves(segs, next, name)
    ensures |next| <= |segs| && (StartsIn(v, segs, name) || Crosses(segs, name) ==> |next| < |segs|)
    decreases |segs|, |v|, 0
  {
    var p, s := ParamText(name), v + Tail(segs);
    var k, front := Stride(s, p), Written(s, p, value);
    var h;
    if |v| < k {
      var j, w := ConsumeFrom(v, segs, name);
      PiecesFrom(segs, j + 1);
      h, next := Scan(w, segs[j + 1..], name, value);
      LeavesMore(segs, j + 1, next, name);
    } else {
      assert s[k..] == v[k..] + Tail(segs) && s[0] == v[0];
      h, next := Scan(v[k..], segs, name, value);
      if StartsIn(v, segs, name) { StartsBehind(v, k, segs, name); }
    }
    head := front + h;
    ReplaceOn(s, p, value, h, Tail(next));
  }

  lemma {:induction false} ScanTail(segs: seq<Segment>, name: string, value: string) returns (next: seq<Segment>)
    requires Pieces(segs) && PlainName(name) && value != "" && '.' !in value
    ensures ReplaceAll(Tail(segs), ParamText(name), value) == Tail(next)
    ensures segs != [] ==> next != [] && ReplaceAll(Render(segs), ParamText(name), value) == Render(next)
    ensures Pieces(next) && Leaves(segs, next, name)
    ensures |next| <= |segs| && (Crosses(segs, name) ==> |next| < |segs|)
    decreases |segs|, 0, 0
  {
    if segs == [] {
      next := [];
    } else {
      PiecesCons(segs);
      var seg, rest, head := segs[0], segs[1..], Value("");
      if seg.Param? {
        next := ScanTail(rest, name, value);
        ReplaceParam(seg.name, rest, name, value);
        NothingStartsInParam(seg.name, rest, name);
        head := Put(seg, name, value);
      } else {
        var h;
        h, next := Scan(seg.Text(), rest, name, value);
        head := Value(h);
      }
      assert segs == [seg] + rest;
      LeavesCons(seg, rest, head, next, name);
      RenderCons(head, next);
      ReplaceSeparator(segs, name, value);
      next := [head] + next;
    }
  }

  // ----- the whole substitution -----

  /** What the substitution of all names makes of a text. */
  function Expanded(names: seq<string>, s: string, values: map<string, string>): string
    requires Accepted(names, values)
  {
    ReplaceSucceedsIff(names, s, values);
    ReplaceEach(names, s, values).value
  }

  lemma ExpandedStep(names: seq<string>, s: string, values: map<string, string>)
    requires names != [] && Accepted(names, values)
    ensures var init, name := names[..|names| - 1], names[|names| - 1];
            && Accepted(init, values)
            && Expanded(names, s, values) == ReplaceAll(Expanded(init, s, values), ParamText(name), values[name])
  {
    var init := names[..|names| - 1];
    assert forall i :: 0 <= i < |init| ==> init[i] == names[i];
    ReplaceSucceedsIff(names, s, values);
    ReplaceSucceedsIff(init, s, values);
  }

  ghost predicate PlainNames(names: seq<string>)
  {
    forall i :: 0 <= i < |names| ==> PlainName(names[i])
  }

  lemma AcceptedInit(init: seq<string>, last: string, values: map<string, string>)
    requires Accepted(init + [last], values)
    ensures Accepted(init, values) && last in values && ValidToken(values[last])
    ensures values[last] != "" && '.' !in values[last]
    ensures PlainNames(init + [last]) ==> PlainNames(init) && PlainName(last)
  {
    var names := init + [last];
    assert names[|init|] == last && forall i :: 0 <= i < |init| ==> init[i] == names[i];
  }

  /** The segments after the names have been replaced in each of them. */
  function Staged(segs: seq<Segment>, names: seq<string>, values: map<string, string>): seq<Segment>
    requires Accepted(names, values)
  {
    if names == [] then segs
    else
      var init, last := names[..|names| - 1], names[|names| - 1];
      RenewAll(Staged(segs, init, values), last, values[last])
  }

  /** At no stage of the substitution is the text of its parameter spelled across a separator. */
  predicate Uncrossed(segs: seq<Segment>, names: seq<string>, values: map<string, string>)
    requires Accepted(names, values)
  {
    if names == [] then true
    else
      var init, last := names[..|names| - 1], names[|names| - 1];
      Uncrossed(segs, init, values) && !Crosses(Staged(segs, init, values), last)
  }

  lemma {:induction false} ReplaceKeepsSegment(s: string, pattern: string, value: string)
    requires pattern != [] && s != "" && '.' !in s && value != "" && '.' !in value
    ensures ReplaceAll(s, pattern, value) != "" && '.' !in ReplaceAll(s, pattern, value)
    decreases |s|
  {
    var k := if pattern <= s then |pattern| else 1;
    if s[k..] != "" { ReplaceKeepsSegment(s[k..], pattern, value); }
  }

  lemma RenewKeepsPieces(segs: seq<Segment>, name: string, value: string)
    requires Pieces(segs) && value != "" && '.' !in value
    ensures Pieces(RenewAll(segs, name, value)) && Leaves(segs, RenewAll(segs, name, value), name)
  {
    forall i | 0 <= i < |segs| ensures IsPiece(Renewed(segs[i], name, value)) {
      assert IsPiece(segs[i]);
      if !segs[i].Param? { ReplaceKeepsSegment(segs[i].Text(), ParamText(name), value); }
    }
  }

  /** The parameters in cur are parameters of segs that are not among names. */
  ghost predicate Remain(segs: seq<Segment>, names: seq<string>, cur: seq<Segment>)
  {
    forall i :: 0 <= i < |cur| && cur[i].Param? ==> cur[i] in segs && cur[i].name !in names
  }

  lemma RemainStep(segs: seq<Segment>, init: seq<string>, last: string, cur: seq<Segment>, next: seq<Segment>)
    requires Remain(segs, init, cur) && Leaves(cur, next, last)
    ensures Remain(segs, init + [last], next)
  {
    forall i | 0 <= i < |next| && next[i].Param? ensures next[i] in segs && next[i].name !in init + [last] {
      var j :| 0 <= j < |cur| && cur[j] == next[i];
    }
  }

  /** One more name, on the text the others have left. */
  lemma MergeStep(cur: seq<Segment>, name: string, value: string) returns (next: seq<Segment>)
    requires Pieces(cur) && PlainName(name) && value != "" && '.' !in value
    ensures ReplaceAll(Render(cur), ParamText(name), value) == Render(next)
    ensures Pieces(next) && Leaves(cur, next, name) && |next| <= |cur|
    ensures if Crosses(cur, name) then |next| < |cur| else next == RenewAll(cur, name, value)
  {
    if Crosses(cur, name) {
      next := ScanTail(cur, name, value);
    } else {
      next := RenewAll(cur, name, value);
      ReplaceUncrossed(cur, name, value);
      RenewKeepsPieces(cur, name, value);
    }
  }

  /** The text the names leave: each segment replaced by itself, or fewer segments. */
  lemma {:induction false} Merge(segs: seq<Segment>, names: seq<string>, values: map<string, string>)
    returns (cur: seq<Segment>)
    requires IsTemplate(segs) && Accepted(names, values) && PlainNames(names)
    ensures ReplaceEach(names, Render(segs), values) == Some(Render(cur))
    ensures Pieces(cur) && Remain(segs, names, cur)
    ensures if Uncrossed(segs, names, values) then cur == Staged(segs, names, values) else |cur| < |segs|
    ensures |cur| <= |segs|
  {
    if names == [] {
      cur := segs;
      TemplateIsPieces(segs);
    } else {
      var init, last := names[..|names| - 1], names[|names| - 1];
      assert names == init + [last];
      AcceptedInit(init, last, values);
      var before := Merge(segs, init, values);
      cur := MergeStep(before, last, values[last]);
      RemainStep(segs, init, last, before, cur);
    }
  }

  lemma RenewedText(seg: Segment, name: string, value: string)
    requires IsPiece(seg) && PlainName(name)
    ensures Renewed(seg, name, value).Text() == ReplaceAll(seg.Text(), ParamText(name), value)
  {
    if seg.Param? {
      ReplaceParam(seg.name, [], name, value);
      assert forall s: string :: s + "" == s;
    }
  }

  lemma {:induction false} StagedText(segs: seq<Segment>, names: seq<string>, values: map<string, string>, i: nat)
    requires IsTemplate(segs) && Accepted(names, values) && PlainNames(names) && i < |segs|
    ensures |Staged(segs, names, values)| == |segs| && IsPiece(Staged(segs, names, values)[i])
    ensures Staged(segs, names, values)[i].Text() == Expanded(names, segs[i].Text(), values)
  {
    if names == [] {
      TemplateIsPieces(segs);
    } else {
      var init, last := names[..|names| - 1], names[|names| - 1];
      assert names == init + [last];
      AcceptedInit(init, last, values);
      StagedText(segs, init, values, i);
      var seg := Staged(segs, init, values)[i];
      RenewedText(seg, last, values[last]);
      ExpandedStep(names, segs[i].Text(), values);
      if !seg.Param? { ReplaceKeepsSegment(seg.Text(), ParamText(last), values[last]); }
    }
  }

  lemma {:induction false} WordIsKept(names: seq<string>, w: string, values: map<string, string>)
    requires Accepted(names, values) && IsWord(w)
    ensures Expanded(names, w, values) == w
  {
    if names != [] {
      var init, name := names[..|names| - 1], names[|names| - 1];
      ExpandedStep(names, w, values);
      WordIsKept(init, w, values);
      assert forall i :: 0 <= i < |w| ==> IsWordChar(w[i]);
      CopyPlain(w, "", name, values[name]);
      assert w + "" == w;
    }
  }

  /** What each parameter becomes in the end. */
  function Finals(names: seq<string>, values: map<string, string>): map<string, string>
    requires Accepted(names, values)
  {
    map n | n in names :: Expanded(names, ParamText(n), values)
  }

  lemma {:induction false} StagedTexts(segs: seq<Segment>, values: map<string, string>)
    requires IsTemplate(segs) && Accepted(NamesOf(segs), values)
    ensures Texts(Staged(segs, NamesOf(segs), values)) == Texts(Substituted(segs, Finals(NamesOf(segs), values)))
  {
    var names := NamesOf(segs);
    NamesArePlain(segs);
    var cur, out := Staged(segs, names, values), Substituted(segs, Finals(names, values));
    if segs != [] { StagedText(segs, names, values, 0); } else { StagedNothing(names, values); }
    forall i | 0 <= i < |segs| ensures cur[i].Text() == out[i].Text() {
      StagedText(segs, names, values, i);
      assert GoodSegment(segs[i]) && !segs[i].Value?;
      if segs[i].Word? { WordIsKept(names, segs[i].text, values); }
    }
  }

  lemma {:induction false} StagedNothing(names: seq<string>, values: map<string, string>)
    requires Accepted(names, values)
    ensures Staged([], names, values) == []
  {
    if names != [] { StagedNothing(names[..|names| - 1], values); }
  }

  /** In the end no parameter is left. */
  lemma NothingRemains(segs: seq<Segment>, cur: seq<Segment>)
    requires IsTemplate(segs) && Pieces(cur) && Remain(segs, NamesOf(segs), cur)
    ensures PlainSegments(Texts(cur))
  {
    NamesArePlain(segs);
    forall i | 0 <= i < |cur| ensures cur[i].Text() != "" && '.' !in cur[i].Text() {
      assert IsPiece(cur[i]);
    }
  }

  lemma FinalsAreSegments(segs: seq<Segment>, values: map<string, string>)
    requires IsTemplate(segs) && Accepted(NamesOf(segs), values)
    ensures Segmented(NamesOf(segs), Finals(NamesOf(segs), values))
  {
    var names := NamesOf(segs);
    NamesArePlain(segs);
    forall k | 0 <= k < |names|
      ensures Finals(names, values)[names[k]] != "" && '.' !in Finals(names, values)[names[k]]
    {
      ParamEnds(names, names[k], values);
    }
  }

  /** A parameter among the names becomes a text that can stand in one segment. */
  lemma {:induction false} ParamEnds(names: seq<string>, name: string, values: map<string, string>)
    requires Accepted(names, values) && PlainNames(names) && PlainName(name)
    ensures var s := Expanded(names, ParamText(name), values);
            if name in names then s != "" && '.' !in s else s == ParamText(name)
  {
    if names != [] {
      var init, last := names[..|names| - 1], names[|names| - 1];
      assert names == init + [last];
      AcceptedInit(init, last, values);
      ParamEnds(init, name, values);
      ExpandedStep(names, ParamText(name), values);
      if name in init {
        ReplaceKeepsSegment(Expanded(init, ParamText(name), values), ParamText(last), values[last]);
      } else {
        RenewedText(Param(name), last, values[last]);
      }
    }
  }

  /** The subject is a list of segments: as many as the template has, or fewer after a crossing. */
  lemma SubjectIs(segs: seq<Segment>, values: map<string, string>) returns (texts: seq<string>)
    requires IsTemplate(segs) && Accepted(NamesOf(segs), values)
    ensures ReplaceEach(FindParams(Render(segs)), Render(segs), values) == Some(Join(texts)) && PlainSegments(texts)
    ensures if Uncrossed(segs, NamesOf(segs), values)
            then texts == Texts(Substituted(segs, Finals(NamesOf(segs), values))) else |texts| < |segs|
  {
    FindTail(segs);
    NamesArePlain(segs);
    var cur := Merge(segs, NamesOf(segs), values);
    NothingRemains(segs, cur);
    RenderIsJoin(cur);
    StagedTexts(segs, values);
    texts := Texts(cur);
  }

  /**
   The subject is the template with each parameter put through the whole
   substitution if and only if no crossing occurs.
   */
  lemma ExpansionIsIff(segs: seq<Segment>, values: map<string, string>)
    requires IsTemplate(segs) && Accepted(NamesOf(segs), values)
    ensures var names := NamesOf(segs);
            ReplaceEach(FindParams(Render(segs)), Render(segs), values) ==
              Some(Render(Substituted(segs, Finals(names, values)))) <==>
            Uncrossed(segs, names, values)
  {
    var texts := SubjectIs(segs, values);
    var out := Substituted(segs, Finals(NamesOf(segs), values));
    RenderIsJoin(out);
    FinalsAreSegments(segs, values);
    SubstitutedIsPlain(segs, Finals(NamesOf(segs), values));
    if Join(texts) == Join(Texts(out)) { JoinIsInjective(texts, Texts(out)); }
  }

  // ----- the exact condition -----

  /** Every parameter, put through the whole substitution, becomes its value. */
  ghost predicate Settled(names: seq<string>, values: map<string, string>)
    requires Accepted(names, values)
  {
    forall i :: 0 <= i < |names| ==> Expanded(names, ParamText(names[i]), values) == values[names[i]]
  }

  /** All values are accepted, each parameter becomes its value, and no two segments merge. */
  ghost predicate Clean(segs: seq<Segment>, values: map<string, string>)
  {
    var names := NamesOf(segs);
    Accepted(names, values) && Settled(names, values) && Uncrossed(segs, names, values)
  }

  lemma SettledIsKept(segs: seq<Segment>, values: map<string, string>)
    requires Accepted(NamesOf(segs), values) && Settled(NamesOf(segs), values)
    ensures Substituted(segs, Finals(NamesOf(segs), values)) == Substituted(segs, values)
    ensures Params(segs, Finals(NamesOf(segs), values)) == Params(segs, values)
  {
    var names := NamesOf(segs);
    forall n | n in names ensures n in values && Finals(names, values)[n] == values[n] {
      var i :| 0 <= i < |names| && names[i] == n;
    }
  }

  lemma UnsettledDiffers(segs: seq<Segment>, values: map<string, string>)
    requires Accepted(NamesOf(segs), values) && !Settled(NamesOf(segs), values)
    ensures Params(segs, Finals(NamesOf(segs), values)) != Params(segs, values)
    ensures Texts(Substituted(segs, Finals(NamesOf(segs), values))) != Texts(Substituted(segs, values))
  {
    var names := NamesOf(segs);
    var finals := Finals(names, values);
    var k :| 0 <= k < |names| && Expanded(names, ParamText(names[k]), values) != values[names[k]];
    assert Params(segs, finals)[names[k]] != Params(segs, values)[names[k]];
    NamesAreParams(segs);
    var i :| 0 <= i < |segs| && segs[i] == Param(names[k]);
    SubstitutedText(segs, finals, i);
    SubstitutedText(segs, values, i);
  }

  /** ReplaceTokens puts each value in the place of its parameter if and only if the values are clean. */
  lemma SubstitutionIsIff(segs: seq<Segment>, values: map<string, string>)
    requires IsTemplate(segs)
    ensures ReplaceEach(FindParams(Render(segs)), Render(segs), values) == Some(Render(Substituted(segs, values))) <==>
            Clean(segs, values)
  {
    var names := NamesOf(segs);
    if Accepted(names, values) {
      var texts := SubjectIs(segs, values);
      var out := Substituted(segs, values);
      RenderIsJoin(out);
      AcceptedIsSegmented(names, values);
      SubstitutedIsPlain(segs, values);
      if Settled(names, values) { SettledIsKept(segs, values); } else { UnsettledDiffers(segs, values); }
      if Join(texts) == Join(Texts(out)) { JoinIsInjective(texts, Texts(out)); }
    } else {
      FindTail(segs);
      ReplaceSucceedsIff(names, Render(segs), values);
    }
  }
}
