/** The grammar documented in cloudevent/cefilter/parser.go and the recursive-descent parser for it. */
module Parsing {
  import opened Wrappers
  import opened Charset
  import opened Lexing
  import opened Filters

  // ----- the grammar -----

  /** Derivations of the documented grammar, as concrete syntax trees. */
  datatype Syntax =
    | EqSyntax(key: string, val: string)
    | NeSyntax(key: string, val: string)
    | LikeSyntax(key: string, val: string)
    | InSyntax(key: string, items: seq<string>)
    | ExistsSyntax(key: string)
    | Paren(inner: Syntax)
    | NotSyntax(inner: Syntax)
    | AndSyntax(left: Syntax, right: Syntax)
    | OrSyntax(left: Syntax, right: Syntax)
  {
    /** The nonterminal a node belongs to: 0 primary, 1 not_expr, 2 and_expr, 3 or_expr. */
    function Level(): nat
    {
      match this
      case NotSyntax(_) => 1
      case AndSyntax(_, _) => 2
      case OrSyntax(_, _) => 3
      case _ => 0
    }

    /** or_expr = and_expr { OR and_expr }, and_expr = not_expr { AND not_expr }, not_expr = NOT not_expr | primary */
    predicate IsDerivation()
    {
      match this
      case InSyntax(_, items) => items != []
      case Paren(e) => e.IsDerivation()
      case NotSyntax(e) => e.IsDerivation() && e.Level() <= 1
      case AndSyntax(l, r) => l.IsDerivation() && l.Level() <= 2 && r.IsDerivation() && r.Level() <= 1
      case OrSyntax(l, r) => l.IsDerivation() && r.IsDerivation() && r.Level() <= 2
      case _ => true
    }

    /** The tokens derived. */
    function Yield(): seq<Token>
      requires IsDerivation()
    {
      match this
      case EqSyntax(k, v) => [Ident(k), EqSign, Str(v)]
      case NeSyntax(k, v) => [Ident(k), NeSign, Str(v)]
      case LikeSyntax(k, v) => [Ident(k), LikeWord, Str(v)]
      case InSyntax(k, items) => [Ident(k), InWord, LParen] + ListTokens(items) + [RParen]
      case ExistsSyntax(k) => [ExistsWord, Ident(k)]
      case Paren(e) => [LParen] + e.Yield() + [RParen]
      case NotSyntax(e) => [NotWord] + e.Yield()
      case AndSyntax(l, r) => l.Yield() + [AndWord] + r.Yield()
      case OrSyntax(l, r) => l.Yield() + [OrWord] + r.Yield()
    }

    /** The tree denoted: NOT binds tighter than AND, AND than OR, and both associate to the left. */
    function Tree(cs: Charset): Predicate
      requires IsDerivation()
    {
      match this
      case EqSyntax(k, v) => Eq(k, v)
      case NeSyntax(k, v) => Ne(k, v)
      case LikeSyntax(k, v) => LikeNode(k, v)
      case InSyntax(k, items) => InNode(cs, k, items)
      case ExistsSyntax(k) => Exists(k)
      case Paren(e) => e.Tree(cs)
      case NotSyntax(e) => Not(e.Tree(cs))
      case AndSyntax(l, r) => And(l.Tree(cs), r.Tree(cs))
      case OrSyntax(l, r) => Or(l.Tree(cs), r.Tree(cs))
    }
  }

  /** string { "," string } */
  function ListTokens(items: seq<string>): seq<Token>
    requires items != []
  {
    if |items| == 1 then [Str(items[0])] else [Str(items[0]), Comma] + ListTokens(items[1..])
  }

  /** The grammar derives ts, with tree p. */
  ghost predicate Derives(cs: Charset, ts: seq<Token>, p: Predicate)
  {
    exists d: Syntax :: d.IsDerivation() && d.Yield() == ts && d.Tree(cs) == p
  }

  // ----- what the parser computes from the tokens not yet consumed -----

  datatype Parsed = Fail | Done(pred: Predicate, rest: seq<Token>)

  datatype ParsedList = ListFail | ListDone(items: seq<string>, rest: seq<Token>)

  /** peek: past the end there is Eof. */
  function Head(ts: seq<Token>): Token
  {
    if ts == [] then Eof else ts[0]
  }

  function StringsFrom(ts: seq<Token>): (r: ParsedList)
    ensures r.ListDone? ==> |r.rest| < |ts| && r.items != []
  {
    if !Head(ts).Str? then ListFail
    else if Head(ts[1..]) != Comma then ListDone([ts[0].val], ts[1..])
    else
      var more := StringsFrom(ts[2..]);
      if more.ListFail? then ListFail else ListDone([ts[0].val] + more.items, more.rest)
  }

  function ComparisonFrom(cs: Charset, key: string, ts: seq<Token>): (r: Parsed)
    ensures r.Done? ==> |r.rest| < |ts|
  {
    match Head(ts)
    case EqSign => if Head(ts[1..]).Str? then Done(Eq(key, ts[1].val), ts[2..]) else Fail
    case NeSign => if Head(ts[1..]).Str? then Done(Ne(key, ts[1].val), ts[2..]) else Fail
    case LikeWord => if Head(ts[1..]).Str? then Done(LikeNode(key, ts[1].val), ts[2..]) else Fail
    case InWord =>
      if Head(ts[1..]) != LParen then Fail
      else
        var list := StringsFrom(ts[2..]);
        if list.ListFail? || Head(list.rest) != RParen then Fail
        else Done(InNode(cs, key, list.items), list.rest[1..])
    case _ => Fail
  }

  function PrimaryFrom(cs: Charset, ts: seq<Token>): (r: Parsed)
    ensures r.Done? ==> |r.rest| < |ts|
    decreases |ts|, 1
  {
    match Head(ts)
    case LParen =>
      var inner := OrFrom(cs, ts[1..]);
      if inner.Fail? || Head(inner.rest) != RParen then Fail else Done(inner.pred, inner.rest[1..])
    case ExistsWord => if Head(ts[1..]).Ident? then Done(Exists(ts[1].name), ts[2..]) else Fail
    case Ident(name) => ComparisonFrom(cs, name, ts[1..])
    case _ => Fail
  }

  function NotFrom(cs: Charset, ts: seq<Token>): (r: Parsed)
    ensures r.Done? ==> |r.rest| < |ts|
    decreases |ts|, 2
  {
    if Head(ts) == NotWord then
      var inner := NotFrom(cs, ts[1..]);
      if inner.Fail? then Fail else Done(Not(inner.pred), inner.rest)
    else PrimaryFrom(cs, ts)
  }

  function AndLoop(cs: Charset, left: Predicate, ts: seq<Token>): (r: Parsed)
    ensures r.Done? ==> |r.rest| <= |ts|
    decreases |ts|, 3
  {
    if Head(ts) != AndWord then Done(left, ts)
    else
      var right := NotFrom(cs, ts[1..]);
      if right.Fail? then Fail else AndLoop(cs, And(left, right.pred), right.rest)
  }

  function AndFrom(cs: Charset, ts: seq<Token>): (r: Parsed)
    ensures r.Done? ==> |r.rest| < |ts|
    decreases |ts|, 3
  {
    var left := NotFrom(cs, ts);
    if left.Fail? then Fail else AndLoop(cs, left.pred, left.rest)
  }

  function OrLoop(cs: Charset, left: Predicate, ts: seq<Token>): (r: Parsed)
    ensures r.Done? ==> |r.rest| <= |ts|
    decreases |ts|, 4
  {
    if Head(ts) != OrWord then Done(left, ts)
    else
      var right := AndFrom(cs, ts[1..]);
      if right.Fail? then Fail else OrLoop(cs, Or(left, right.pred), right.rest)
  }

  function OrFrom(cs: Charset, ts: seq<Token>): (r: Parsed)
    ensures r.Done? ==> |r.rest| < |ts|
    decreases |ts|, 4
  {
    var left := AndFrom(cs, ts);
    if left.Fail? then Fail else OrLoop(cs, left.pred, left.rest)
  }

  function ParseTokens(cs: Charset, toks: seq<Token>): Option<Predicate>
  {
    var r := OrFrom(cs, toks);
    if r.Fail? || Head(r.rest) != Eof then None else Some(r.pred)
  }

  /** Parse as a function of the expression text. */
  function Parse(cs: Charset, expr: string): Option<Predicate>
  {
    var toks := Tokens(cs, expr);
    if toks.None? then None else ParseTokens(cs, toks.value)
  }

  lemma AndLoopMore(cs: Charset, left: Predicate, right: Predicate, ts: seq<Token>, rest: seq<Token>)
    requires NotFrom(cs, ts) == Done(right, rest)
    ensures AndLoop(cs, left, [AndWord] + ts) == AndLoop(cs, And(left, right), rest)
  {
    assert ([AndWord] + ts)[1..] == ts;
  }

  lemma OrLoopMore(cs: Charset, left: Predicate, right: Predicate, ts: seq<Token>, rest: seq<Token>)
    requires AndFrom(cs, ts) == Done(right, rest)
    ensures OrLoop(cs, left, [OrWord] + ts) == OrLoop(cs, Or(left, right), rest)
  {
    assert ([OrWord] + ts)[1..] == ts;
  }

  lemma InListStep(cs: Charset, key: string, items: seq<string>, ts: seq<Token>, rest: seq<Token>)
    requires StringsFrom(ts) == ListDone(items, [RParen] + rest)
    ensures ComparisonFrom(cs, key, [InWord, LParen] + ts) == Done(InNode(cs, key, items), rest)
  {
    assert ([InWord, LParen] + ts)[2..] == ts;
    assert ([RParen] + rest)[1..] == rest;
  }

  lemma ParenStep(cs: Charset, p: Predicate, ts: seq<Token>, rest: seq<Token>)
    requires OrFrom(cs, ts) == Done(p, [RParen] + rest)
    ensures PrimaryFrom(cs, [LParen] + ts) == Done(p, rest)
  {
    assert ([LParen] + ts)[1..] == ts;
    assert ([RParen] + rest)[1..] == rest;
  }

  lemma Regroup(a: seq<Token>, b: seq<Token>, c: seq<Token>, rest: seq<Token>)
    ensures a + b + c + rest == a + (b + (c + rest))
  {
  }

  // ----- everything the parser accepts is derived -----

  lemma {:induction false} StringsSound(ts: seq<Token>)
    requires StringsFrom(ts).ListDone?
    ensures ts == ListTokens(StringsFrom(ts).items) + StringsFrom(ts).rest
  {
    if Head(ts[1..]) == Comma {
      StringsSound(ts[2..]);
      var more := StringsFrom(ts[2..]);
      assert ([ts[0].val] + more.items)[1..] == more.items;
      assert ts == [ts[0], ts[1]] + ts[2..];
    } else {
      assert ts == [ts[0]] + ts[1..];
    }
  }

  /** What a successful parse at a level consumed. */
  ghost predicate Consumed(cs: Charset, ts: seq<Token>, r: Parsed, d: Syntax, level: nat)
  {
    r.Done? && d.IsDerivation() && d.Level() <= level && ts == d.Yield() + r.rest && r.pred == d.Tree(cs)
  }

  /** What an accepted IN list looks like. */
  lemma InListShape(cs: Charset, key: string, ts: seq<Token>)
    requires Head(ts) == InWord && ComparisonFrom(cs, key, ts).Done?
    ensures |ts| >= 2
    ensures var list := StringsFrom(ts[2..]);
            && list.ListDone? && Head(list.rest) == RParen
            && ComparisonFrom(cs, key, ts) == Done(InNode(cs, key, list.items), list.rest[1..])
            && ts == [InWord, LParen] + (ListTokens(list.items) + ([RParen] + list.rest[1..]))
  {
    var list := StringsFrom(ts[2..]);
    StringsSound(ts[2..]);
    assert list.rest == [RParen] + list.rest[1..];
    assert ts == [InWord, LParen] + ts[2..];
  }

  lemma InListSound(cs: Charset, key: string, ts: seq<Token>) returns (d: Syntax)
    requires Head(ts) == InWord && ComparisonFrom(cs, key, ts).Done?
    ensures Consumed(cs, [Ident(key)] + ts, ComparisonFrom(cs, key, ts), d, 0)
  {
    InListShape(cs, key, ts);
    var list := StringsFrom(ts[2..]);
    d := InSyntax(key, list.items);
    InYield(key, ListTokens(list.items), list.rest[1..], ts);
  }

  lemma InYield(key: string, items: seq<Token>, rest: seq<Token>, ts: seq<Token>)
    requires ts == [InWord, LParen] + (items + ([RParen] + rest))
    ensures [Ident(key)] + ts == [Ident(key), InWord, LParen] + items + [RParen] + rest
  {
    Regroup([Ident(key), InWord, LParen], items, [RParen], rest);
    assert [Ident(key)] + ts == [Ident(key), InWord, LParen] + (items + ([RParen] + rest));
  }

  lemma ComparisonSound(cs: Charset, key: string, ts: seq<Token>) returns (d: Syntax)
    requires ComparisonFrom(cs, key, ts).Done?
    ensures Consumed(cs, [Ident(key)] + ts, ComparisonFrom(cs, key, ts), d, 0)
  {
    match ts[0]
    case EqSign => d := EqSyntax(key, ts[1].val);
    case NeSign => d := NeSyntax(key, ts[1].val);
    case LikeWord => d := LikeSyntax(key, ts[1].val);
    case InWord => d := InListSound(cs, key, ts);
  }

  lemma {:induction false} PrimarySound(cs: Charset, ts: seq<Token>) returns (d: Syntax)
    requires PrimaryFrom(cs, ts).Done?
    ensures Consumed(cs, ts, PrimaryFrom(cs, ts), d, 0)
    decreases |ts|, 1
  {
    if ts[0] == LParen {
      var inner := OrFrom(cs, ts[1..]);
      var e := OrSound(cs, ts[1..]);
      d := Paren(e);
      assert inner.rest == [RParen] + inner.rest[1..];
      assert ts == [LParen] + ts[1..];
      Regroup([LParen], e.Yield(), [RParen], inner.rest[1..]);
    } else if ts[0] == ExistsWord {
      d := ExistsSyntax(ts[1].name);
      assert ts == [ExistsWord, ts[1]] + ts[2..];
    } else {
      d := ComparisonSound(cs, ts[0].name, ts[1..]);
      assert ts == [ts[0]] + ts[1..];
    }
  }

  lemma {:induction false} NotSound(cs: Charset, ts: seq<Token>) returns (d: Syntax)
    requires NotFrom(cs, ts).Done?
    ensures Consumed(cs, ts, NotFrom(cs, ts), d, 1)
    decreases |ts|, 2
  {
    if Head(ts) == NotWord {
      var e := NotSound(cs, ts[1..]);
      d := NotSyntax(e);
      var rest := NotFrom(cs, ts[1..]).rest;
      assert ts == [NotWord] + (e.Yield() + rest) == [NotWord] + e.Yield() + rest;
    } else {
      d := PrimarySound(cs, ts);
    }
  }

  lemma {:induction false} AndLoopSound(cs: Charset, left: Syntax, ts: seq<Token>) returns (d: Syntax)
    requires left.IsDerivation() && left.Level() <= 2 && AndLoop(cs, left.Tree(cs), ts).Done?
    ensures Consumed(cs, left.Yield() + ts, AndLoop(cs, left.Tree(cs), ts), d, 2)
    decreases |ts|, 3
  {
    if Head(ts) != AndWord {
      d := left;
    } else {
      var e := NotSound(cs, ts[1..]);
      var right := NotFrom(cs, ts[1..]);
      assert ts == [AndWord] + ts[1..];
      AndLoopMore(cs, left.Tree(cs), right.pred, ts[1..], right.rest);
      Regroup(left.Yield(), [AndWord], e.Yield(), right.rest);
      d := AndLoopSound(cs, AndSyntax(left, e), right.rest);
    }
  }

  lemma {:induction false} AndSound(cs: Charset, ts: seq<Token>) returns (d: Syntax)
    requires AndFrom(cs, ts).Done?
    ensures Consumed(cs, ts, AndFrom(cs, ts), d, 2)
    decreases |ts|, 3
  {
    var e := NotSound(cs, ts);
    d := AndLoopSound(cs, e, NotFrom(cs, ts).rest);
  }

  lemma {:induction false} OrLoopSound(cs: Charset, left: Syntax, ts: seq<Token>) returns (d: Syntax)
    requires left.IsDerivation() && OrLoop(cs, left.Tree(cs), ts).Done?
    ensures Consumed(cs, left.Yield() + ts, OrLoop(cs, left.Tree(cs), ts), d, 3)
    decreases |ts|, 4
  {
    if Head(ts) != OrWord {
      d := left;
    } else {
      var e := AndSound(cs, ts[1..]);
      var right := AndFrom(cs, ts[1..]);
      assert ts == [OrWord] + ts[1..];
      OrLoopMore(cs, left.Tree(cs), right.pred, ts[1..], right.rest);
      Regroup(left.Yield(), [OrWord], e.Yield(), right.rest);
      d := OrLoopSound(cs, OrSyntax(left, e), right.rest);
    }
  }

  lemma {:induction false} OrSound(cs: Charset, ts: seq<Token>) returns (d: Syntax)
    requires OrFrom(cs, ts).Done?
    ensures Consumed(cs, ts, OrFrom(cs, ts), d, 3)
    decreases |ts|, 4
  {
    var e := AndSound(cs, ts);
    d := OrLoopSound(cs, e, AndFrom(cs, ts).rest);
  }

  // ----- everything derived is accepted -----

  lemma {:induction false} StringsComplete(items: seq<string>, rest: seq<Token>)
    requires items != [] && Head(rest) != Comma
    ensures StringsFrom(ListTokens(items) + rest) == ListDone(items, rest)
  {
    var ts := ListTokens(items) + rest;
    if |items| == 1 {
      assert ts[1..] == rest && items == [items[0]];
    } else {
      assert ts[2..] == ListTokens(items[1..]) + rest;
      StringsComplete(items[1..], rest);
      assert items == [items[0]] + items[1..];
    }
  }

  lemma InListComplete(cs: Charset, key: string, items: seq<string>, rest: seq<Token>)
    requires items != []
    ensures ComparisonFrom(cs, key, [InWord, LParen] + ListTokens(items) + [RParen] + rest) ==
            Done(InNode(cs, key, items), rest)
  {
    StringsComplete(items, [RParen] + rest);
    var ts := ListTokens(items) + ([RParen] + rest);
    InListStep(cs, key, items, ts, rest);
    Regroup([InWord, LParen], ListTokens(items), [RParen], rest);
  }

  lemma IdentStep(cs: Charset, name: string, ts: seq<Token>)
    ensures PrimaryFrom(cs, [Ident(name)] + ts) == ComparisonFrom(cs, name, ts)
  {
    assert ([Ident(name)] + ts)[1..] == ts;
  }

  lemma CompareComplete(cs: Charset, key: string, op: Token, v: string, rest: seq<Token>)
    requires op == EqSign || op == NeSign || op == LikeWord
    ensures PrimaryFrom(cs, [Ident(key), op, Str(v)] + rest) ==
            Done(if op == EqSign then Eq(key, v) else if op == NeSign then Ne(key, v) else LikeNode(key, v), rest)
  {
    var ts := [op, Str(v)] + rest;
    IdentStep(cs, key, ts);
    assert [Ident(key), op, Str(v)] + rest == [Ident(key)] + ts;
    assert ts[2..] == rest;
  }

  lemma InLeafComplete(cs: Charset, key: string, items: seq<string>, rest: seq<Token>)
    requires items != []
    ensures PrimaryFrom(cs, [Ident(key), InWord, LParen] + ListTokens(items) + [RParen] + rest) ==
            Done(InNode(cs, key, items), rest)
  {
    var list := ListTokens(items);
    var ts := [InWord, LParen] + list + [RParen] + rest;
    InListComplete(cs, key, items, rest);
    IdentStep(cs, key, ts);
    Regroup([InWord, LParen], list, [RParen], rest);
    InYield(key, list, rest, ts);
  }

  lemma LeafComplete(cs: Charset, d: Syntax, rest: seq<Token>)
    requires d.IsDerivation() && d.Level() == 0 && !d.Paren?
    ensures PrimaryFrom(cs, d.Yield() + rest) == Done(d.Tree(cs), rest)
  {
    match d
    case EqSyntax(k, v) => CompareComplete(cs, k, EqSign, v, rest);
    case NeSyntax(k, v) => CompareComplete(cs, k, NeSign, v, rest);
    case LikeSyntax(k, v) => CompareComplete(cs, k, LikeWord, v, rest);
    case ExistsSyntax(k) => assert ([ExistsWord, Ident(k)] + rest)[2..] == rest;
    case InSyntax(k, items) => InLeafComplete(cs, k, items, rest);
  }

  lemma {:induction false} PrimaryComplete(cs: Charset, d: Syntax, rest: seq<Token>)
    requires d.IsDerivation() && d.Level() == 0
    ensures PrimaryFrom(cs, d.Yield() + rest) == Done(d.Tree(cs), rest)
    decreases d, 1
  {
    if d.Paren? {
      OrComplete(cs, d.inner, [RParen] + rest);
      ParenStep(cs, d.Tree(cs), d.inner.Yield() + ([RParen] + rest), rest);
      Regroup([LParen], d.inner.Yield(), [RParen], rest);
    } else {
      LeafComplete(cs, d, rest);
    }
  }

  lemma NotStep(cs: Charset, p: Predicate, ts: seq<Token>, rest: seq<Token>)
    requires NotFrom(cs, ts) == Done(p, rest)
    ensures NotFrom(cs, [NotWord] + ts) == Done(Not(p), rest)
  {
    assert ([NotWord] + ts)[1..] == ts;
  }

  lemma PrimaryStart(d: Syntax)
    requires d.IsDerivation() && d.Level() == 0
    ensures d.Yield() != [] && d.Yield()[0] != NotWord
  {
  }

  lemma {:induction false} NotComplete(cs: Charset, d: Syntax, rest: seq<Token>)
    requires d.IsDerivation() && d.Level() <= 1
    ensures NotFrom(cs, d.Yield() + rest) == Done(d.Tree(cs), rest)
    decreases d, 2
  {
    if d.NotSyntax? {
      NotComplete(cs, d.inner, rest);
      NotStep(cs, d.inner.Tree(cs), d.inner.Yield() + rest, rest);
      assert [NotWord] + d.inner.Yield() + rest == [NotWord] + (d.inner.Yield() + rest);
    } else {
      PrimaryComplete(cs, d, rest);
      PrimaryStart(d);
      assert Head(d.Yield() + rest) == d.Yield()[0];
    }
  }

  /** Parsing a derived and_expr arrives at its tree and goes on in the loop. */
  lemma {:induction false} AndComplete(cs: Charset, d: Syntax, rest: seq<Token>)
    requires d.IsDerivation() && d.Level() <= 2
    ensures AndFrom(cs, d.Yield() + rest) == AndLoop(cs, d.Tree(cs), rest)
    decreases d, 3
  {
    if d.AndSyntax? {
      AndComplete(cs, d.left, [AndWord] + (d.right.Yield() + rest));
      NotComplete(cs, d.right, rest);
      AndLoopMore(cs, d.left.Tree(cs), d.right.Tree(cs), d.right.Yield() + rest, rest);
      Regroup(d.left.Yield(), [AndWord], d.right.Yield(), rest);
    } else {
      NotComplete(cs, d, rest);
    }
  }

  lemma {:induction false} OrComplete(cs: Charset, d: Syntax, rest: seq<Token>)
    requires d.IsDerivation() && Head(rest) != AndWord
    ensures OrFrom(cs, d.Yield() + rest) == OrLoop(cs, d.Tree(cs), rest)
    decreases d, 4
  {
    if d.OrSyntax? {
      OrComplete(cs, d.left, [OrWord] + (d.right.Yield() + rest));
      AndComplete(cs, d.right, rest);
      OrLoopMore(cs, d.left.Tree(cs), d.right.Tree(cs), d.right.Yield() + rest, rest);
      Regroup(d.left.Yield(), [OrWord], d.right.Yield(), rest);
    } else {
      AndComplete(cs, d, rest);
    }
  }

  // ----- the parser decides the grammar -----

  /** The tokens in front of the first Eof. */
  function BeforeEof(toks: seq<Token>): seq<Token>
  {
    if Head(toks) == Eof then [] else [toks[0]] + BeforeEof(toks[1..])
  }

  lemma {:induction false} BeforeEofIs(ts: seq<Token>, rest: seq<Token>)
    requires Eof !in ts && Head(rest) == Eof
    ensures BeforeEof(ts + rest) == ts
  {
    if ts == [] {
      assert ts + rest == rest;
    } else {
      BeforeEofIs(ts[1..], rest);
      assert (ts + rest)[1..] == ts[1..] + rest;
    }
  }

  lemma {:induction false} BeforeEofSplits(toks: seq<Token>) returns (rest: seq<Token>)
    ensures toks == BeforeEof(toks) + rest && Head(rest) == Eof && Eof !in BeforeEof(toks)
  {
    if Head(toks) == Eof {
      rest := toks;
    } else {
      rest := BeforeEofSplits(toks[1..]);
      assert toks == [toks[0]] + toks[1..];
    }
  }

  lemma {:induction false} ListHasNoEof(items: seq<string>)
    requires items != []
    ensures Eof !in ListTokens(items)
  {
    if |items| > 1 { ListHasNoEof(items[1..]); }
  }

  lemma {:induction false} NoEofInYield(d: Syntax)
    requires d.IsDerivation()
    ensures Eof !in d.Yield()
  {
    match d
    case InSyntax(_, items) => ListHasNoEof(items);
    case Paren(e) => NoEofInYield(e);
    case NotSyntax(e) => NoEofInYield(e);
    case AndSyntax(l, r) => NoEofInYield(l); NoEofInYield(r);
    case OrSyntax(l, r) => NoEofInYield(l); NoEofInYield(r);
    case _ =>
  }

  /** On every token list the parser returns p exactly when the grammar derives the list with tree p. */
  lemma ParserIsCorrect(cs: Charset, toks: seq<Token>, p: Predicate)
    ensures ParseTokens(cs, toks) == Some(p) <==> Derives(cs, BeforeEof(toks), p)
  {
    if ParseTokens(cs, toks) == Some(p) {
      var d := OrSound(cs, toks);
      NoEofInYield(d);
      BeforeEofIs(d.Yield(), OrFrom(cs, toks).rest);
    }
    if Derives(cs, BeforeEof(toks), p) {
      var d: Syntax :| d.IsDerivation() && d.Yield() == BeforeEof(toks) && d.Tree(cs) == p;
      var rest := BeforeEofSplits(toks);
      OrComplete(cs, d, rest);
    }
  }

  /** The grammar is unambiguous: a token list has at most one tree. */
  lemma GrammarIsUnambiguous(cs: Charset, ts: seq<Token>, p: Predicate, q: Predicate)
    requires Derives(cs, ts, p) && Derives(cs, ts, q)
    ensures p == q
  {
    var d: Syntax :| d.IsDerivation() && d.Yield() == ts && d.Tree(cs) == p;
    var e: Syntax :| e.IsDerivation() && e.Yield() == ts && e.Tree(cs) == q;
    OrComplete(cs, d, []);
    OrComplete(cs, e, []);
  }

  /** Parse accepts exactly the layouts of derivable token lists, with the derived tree. */
  lemma ParseIsCorrect(cs: Charset, expr: string, p: Predicate)
    ensures Parse(cs, expr) == Some(p) <==> exists ts :: Spells(cs, ts + [Eof], expr) && Derives(cs, ts, p)
  {
    if Parse(cs, expr) == Some(p) {
      var toks := Tokens(cs, expr).value;
      TokensSound(cs, expr);
      var ts := LexedTokensAreGood(cs, toks, expr);
      ParserIsCorrect(cs, toks, p);
      BeforeEofIs(ts, [Eof]);
    }
    if ts :| Spells(cs, ts + [Eof], expr) && Derives(cs, ts, p) {
      TokensComplete(cs, ts + [Eof], expr);
      var d: Syntax :| d.IsDerivation() && d.Yield() == ts && d.Tree(cs) == p;
      NoEofInYield(d);
      BeforeEofIs(ts, [Eof]);
      ParserIsCorrect(cs, ts + [Eof], p);
    }
  }

  // ----- the parser itself -----

  class Parser {
    const cs: Charset
    const tokens: seq<Token>
    var pos: nat

    constructor (cs: Charset, tokens: seq<Token>)
      ensures this.cs == cs && this.tokens == tokens && pos == 0
    {
      this.cs := cs;
      this.tokens := tokens;
      pos := 0;
    }

    function Peek(): Token
      reads this
    {
      if pos < |tokens| then tokens[pos] else Eof
    }

    /** The method that returned r has consumed what the specification says, or failed with it. */
    ghost predicate Ends(r: Option<Predicate>, spec: Parsed)
      reads this
    {
      && pos <= |tokens|
      && (r.None? <==> spec.Fail?)
      && (r.Some? ==> spec == Done(r.value, tokens[pos..]))
    }

    method Consume() returns (t: Token)
      requires pos < |tokens|
      modifies `pos
      ensures pos == old(pos) + 1
      ensures t == old(tokens[pos..])[0] && tokens[pos..] == old(tokens[pos..])[1..]
    {
      t := tokens[pos];
      pos := pos + 1;
    }

    method ExpectString() returns (s: Option<string>)
      requires pos <= |tokens|
      modifies `pos
      ensures s.None? <==> !Head(old(tokens[pos..])).Str?
      ensures s.None? ==> pos == old(pos)
      ensures s.Some? ==> pos == old(pos) + 1 <= |tokens|
      ensures s.Some? ==> Head(old(tokens[pos..])) == Str(s.value) && tokens[pos..] == old(tokens[pos..])[1..]
    {
      if Peek().Str? {
        var t := Consume();
        s := Some(t.val);
      } else {
        s := None;
      }
    }

    method ParseOr() returns (r: Option<Predicate>)
      requires pos <= |tokens|
      modifies `pos
      ensures Ends(r, OrFrom(cs, old(tokens[pos..])))
      decreases |tokens| - pos, 4
    {
      r := ParseAnd();
      if r.None? { return; }
      var left := r.value;
      while Peek() == OrWord
        invariant old(pos) < pos <= |tokens|
        invariant OrFrom(cs, old(tokens[pos..])) == OrLoop(cs, left, tokens[pos..])
        decreases |tokens| - pos
      {
        var _ := Consume();
        var right := ParseAnd();
        if right.None? { return None; }
        left := Or(left, right.value);
      }
      return Some(left);
    }

    method ParseAnd() returns (r: Option<Predicate>)
      requires pos <= |tokens|
      modifies `pos
      ensures Ends(r, AndFrom(cs, old(tokens[pos..])))
      decreases |tokens| - pos, 3
    {
      r := ParseNot();
      if r.None? { return; }
      var left := r.value;
      while Peek() == AndWord
        invariant old(pos) < pos <= |tokens|
        invariant AndFrom(cs, old(tokens[pos..])) == AndLoop(cs, left, tokens[pos..])
        decreases |tokens| - pos
      {
        var _ := Consume();
        var right := ParseNot();
        if right.None? { return None; }
        left := And(left, right.value);
      }
      return Some(left);
    }

    method ParseNot() returns (r: Option<Predicate>)
      requires pos <= |tokens|
      modifies `pos
      ensures Ends(r, NotFrom(cs, old(tokens[pos..])))
      decreases |tokens| - pos, 2
    {
      if Peek() == NotWord {
        var _ := Consume();
        r := ParseNot();
        if r.Some? { r := Some(Not(r.value)); }
      } else {
        r := ParsePrimary();
      }
    }

    method ParsePrimary() returns (r: Option<Predicate>)
      requires pos <= |tokens|
      modifies `pos
      ensures Ends(r, PrimaryFrom(cs, old(tokens[pos..])))
      decreases |tokens| - pos, 1
    {
      match Peek() {
        case LParen =>
          var _ := Consume();
          r := ParseOr();
          if r.None? { return; }
          if Peek() != RParen { return None; }
          var _ := Consume();
        case ExistsWord =>
          var _ := Consume();
          if !Peek().Ident? { return None; }
          var ident := Consume();
          r := Some(Exists(ident.name));
        case Ident(name) =>
          var _ := Consume();
          r := ParseComparison(name);
        case _ =>
          r := None;
      }
    }

    method ParseComparison(key: string) returns (r: Option<Predicate>)
      requires pos <= |tokens|
      modifies `pos
      ensures Ends(r, ComparisonFrom(cs, key, old(tokens[pos..])))
    {
      var op := Peek();
      if op == EqSign || op == NeSign || op == LikeWord {
        var _ := Consume();
        var s := ExpectString();
        if s.None? { return None; }
        r := Some(if op == EqSign then Eq(key, s.value) else if op == NeSign then Ne(key, s.value)
          else LikeNode(key, s.value));
      } else if op == InWord {
        var _ := Consume();
        if Peek() != LParen { return None; }
        var _ := Consume();
        var vals, reprs := ParseList();
        if reprs.None? || Peek() != RParen { return None; }
        var _ := Consume();
        r := Some(In(key, vals, Join(reprs.value)));
      } else {
        r := None;
      }
    }

    /** The IN list: the set of its values and their quoted forms, or None. */
    method ParseList() returns (vals: set<string>, reprs: Option<seq<string>>)
      requires pos <= |tokens|
      modifies `pos
      ensures pos <= |tokens|
      ensures var list := StringsFrom(old(tokens[pos..]));
              && (reprs.None? <==> list.ListFail?)
              && (reprs.Some? ==> list.rest == tokens[pos..] && vals == Values(list.items))
              && (reprs.Some? ==> reprs.value == QuoteAll(cs, list.items))
    {
      ghost var items: seq<string> := [];
      ghost var whole := StringsFrom(tokens[pos..]);
      ListStarts(whole);
      vals := {};
      var quoted := [];
      while true
        invariant pos <= |tokens|
        invariant vals == Values(items) && quoted == QuoteAll(cs, items)
        invariant ListContinues(items, StringsFrom(tokens[pos..]), whole)
        decreases |tokens| - pos
      {
        ghost var ts := tokens[pos..];
        var s := ExpectString();
        if s.None? { return vals, None; }
        ListItem(cs, items, s.value);
        vals := vals + {s.value};
        quoted := quoted + [Quote(cs, s.value)];
        if Peek() != Comma {
          assert StringsFrom(ts) == ListDone([s.value], tokens[pos..]);
          return vals, Some(quoted);
        }
        var _ := Consume();
        assert tokens[pos..] == ts[2..];
        ListStep(items, s.value, StringsFrom(ts[2..]), whole);
        items := items + [s.value];
      }
    }

    static ghost function Values(items: seq<string>): set<string>
    {
      set s | s in items
    }

    static lemma ListItem(cs: Charset, items: seq<string>, s: string)
      ensures Values(items + [s]) == Values(items) + {s}
      ensures QuoteAll(cs, items + [s]) == QuoteAll(cs, items) + [Quote(cs, s)]
    {
    }

    static ghost predicate ListContinues(items: seq<string>, more: ParsedList, whole: ParsedList)
    {
      whole == if more.ListFail? then ListFail else ListDone(items + more.items, more.rest)
    }

    static lemma ListStarts(whole: ParsedList)
      ensures ListContinues([], whole, whole)
    {
      if whole.ListDone? { assert [] + whole.items == whole.items; }
    }

    static lemma ListStep(items: seq<string>, s: string, more: ParsedList, whole: ParsedList)
      requires ListContinues(items, if more.ListFail? then ListFail else ListDone([s] + more.items, more.rest), whole)
      ensures ListContinues(items + [s], more, whole)
    {
      if more.ListDone? { assert items + ([s] + more.items) == items + [s] + more.items; }
    }
  }

  /** Parse. */
  method ParseExpression(cs: Charset, expr: string) returns (p: Option<Predicate>)
    ensures p == Parse(cs, expr)
  {
    var toks := Lex(cs, expr);
    if toks.None? { return None; }
    var parser := new Parser(cs, toks.value);
    assert parser.tokens[0..] == toks.value;
    p := parser.ParseOr();
    if p.Some? && parser.Peek() != Eof { p := None; }
  }
}
