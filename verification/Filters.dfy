/** Predicate trees: evaluation and printing, from cloudevent/cefilter/filter.go. */
module Filters {
  import opened Charset
  import Glob

  /** The flat view of a CloudEvent. */
  type Attrs = map<string, string>

  datatype Predicate =
    | Eq(key: string, val: string)
    | Ne(key: string, val: string)
    | Like(key: string, pattern: string, rx: Glob.Regexp)
    | In(key: string, vals: set<string>, repr: string)
    | Exists(key: string)
    | And(left: Predicate, right: Predicate)
    | Or(left: Predicate, right: Predicate)
    | Not(inner: Predicate)

  predicate Match(p: Predicate, a: Attrs)
  {
    match p
    case Eq(k, v) => k in a && a[k] == v
    case Ne(k, v) => k !in a || a[k] != v
    case Like(k, _, rx) => k in a && Glob.Accepts(rx, a[k])
    case In(k, vals, _) => k in a && a[k] in vals
    case Exists(k) => k in a
    case And(l, r) => Match(l, a) && Match(r, a)
    case Or(l, r) => Match(l, a) || Match(r, a)
    case Not(q) => !Match(q, a)
  }

  // ----- laws between the nodes -----

  /** What `=` asks of an event, by changing the event. */
  lemma EqDecidesValue(k: string, v: string, j: string, w: string, a: Attrs)
    ensures Match(Eq(k, v), a[k := w]) <==> v == w
    ensures !Match(Eq(k, v), a - {k})
    ensures j != k ==> (Match(Eq(k, v), a[j := w]) <==> Match(Eq(k, v), a))
  {
  }

  /** `!=` is the negation of `=`, also for a missing attribute. */
  lemma NeIsNotEq(k: string, v: string, a: Attrs)
    ensures Match(Ne(k, v), a) <==> !Match(Eq(k, v), a)
    ensures Match(Ne(k, v), a) <==> Match(Not(Eq(k, v)), a)
    ensures Match(Ne(k, v), a - {k})
  {
  }

  /** EXISTS is `=` with some value. */
  lemma ExistsIsSomeEq(k: string, a: Attrs)
    ensures Match(Exists(k), a) <==> exists v :: Match(Eq(k, v), a)
  {
    if k in a { assert Match(Eq(k, a[k]), a); }
  }

  /** IN is `=` with one of the values, for any list a node is built from. */
  lemma InIsSomeEq(cs: Charset, k: string, vals: set<string>, repr: string, items: seq<string>, a: Attrs)
    ensures Match(In(k, vals, repr), a) <==> exists v :: v in vals && Match(Eq(k, v), a)
    ensures Match(InNode(cs, k, items), a) <==> exists v :: v in items && Match(Eq(k, v), a)
  {
    if k in a && a[k] in vals { assert Match(Eq(k, a[k]), a); }
    if k in a && a[k] in items { assert Match(Eq(k, a[k]), a); }
  }

  /** LIKE is `=` with some value the glob matches that holds the pattern's newlines and no others. */
  lemma LikeIsSomeEq(k: string, pattern: string, a: Attrs)
    ensures Match(LikeNode(k, pattern), a) <==>
            exists v :: Match(Eq(k, v), a) && Glob.GlobMatch(pattern, v) &&
                        Glob.Newlines(v) == Glob.Newlines(pattern)
  {
    Glob.LiteralNewlinesOf(pattern);
    if k in a {
      Glob.CompiledGlobIsCorrect(pattern, a[k]);
      assert Match(Eq(k, a[k]), a);
    }
  }

  /** A pattern without wildcards is `=`. */
  lemma LikeWithoutWildcards(k: string, pattern: string, a: Attrs)
    requires '*' !in pattern && '?' !in pattern
    ensures Match(LikeNode(k, pattern), a) <==> Match(Eq(k, pattern), a)
  {
    if k in a { Glob.PlainAcceptsItself(pattern, a[k]); }
  }

  /** AND, OR and NOT are the operations of a Boolean algebra. */
  lemma BooleanLaws(p: Predicate, q: Predicate, a: Attrs)
    ensures Match(Not(And(p, q)), a) <==> Match(Or(Not(p), Not(q)), a)
    ensures Match(Not(Or(p, q)), a) <==> Match(And(Not(p), Not(q)), a)
    ensures Match(Not(Not(p)), a) <==> Match(p, a)
    ensures Match(And(p, p), a) <==> Match(p, a)
    ensures Match(Or(p, p), a) <==> Match(p, a)
    ensures Match(And(p, q), a) ==> Match(p, a) && Match(q, a)
    ensures Match(p, a) || Match(q, a) ==> Match(Or(p, q), a)
    ensures Match(Or(p, Not(p)), a) && !Match(And(p, Not(p)), a)
  {
  }

  // ----- the %q verb (strconv.Quote) -----

  function HexDigit(n: nat): char
    requires n < 16
  {
    "0123456789abcdef"[n]
  }

  function Hex(n: nat, width: nat): string
  {
    if width == 0 then [] else Hex(n / 16, width - 1) + [HexDigit(n % 16)]
  }

  /** What follows the backslash for a rune that is not printable. */
  function EscapeTail(c: char): string
  {
    var n := c as int;
    if n == 7 then "a" else if n == 8 then "b" else if n == 12 then "f" else if n == 10 then "n"
    else if n == 13 then "r" else if n == 9 then "t" else if n == 11 then "v"
    else if n < 32 || n == 127 then "x" + Hex(n, 2)
    else if n < 0x10000 then "u" + Hex(n, 4)
    else "U" + Hex(n, 8)
  }

  /** The runes that %q writes as themselves or behind one backslash. */
  predicate IsPlainChar(cs: Charset, c: char)
  {
    c == '"' || c == '\\' || cs.printable(c)
  }

  function QuoteChar(cs: Charset, c: char): string
  {
    if c == '"' || c == '\\' then ['\\', c] else if cs.printable(c) then [c] else ['\\'] + EscapeTail(c)
  }

  function QuoteBody(cs: Charset, s: string): string
  {
    if s == [] then [] else QuoteChar(cs, s[0]) + QuoteBody(cs, s[1..])
  }

  function Quote(cs: Charset, s: string): string
  {
    "\"" + QuoteBody(cs, s) + "\""
  }

  function QuoteAll(cs: Charset, items: seq<string>): seq<string>
  {
    seq(|items|, i requires 0 <= i < |items| => Quote(cs, items[i]))
  }

  /** strings.Join with ", ". */
  function Join(parts: seq<string>): string
  {
    if parts == [] then ""
    else if |parts| == 1 then parts[0]
    else parts[0] + ", " + Join(parts[1..])
  }

  // ----- the nodes the parser builds -----

  function LikeNode(key: string, pattern: string): Predicate
  {
    Like(key, pattern, Glob.Items(pattern))
  }

  function InNode(cs: Charset, key: string, items: seq<string>): Predicate
  {
    In(key, (set s | s in items), Join(QuoteAll(cs, items)))
  }

  /** String(). */
  function Print(cs: Charset, p: Predicate): string
  {
    match p
    case Eq(k, v) => k + " = " + Quote(cs, v)
    case Ne(k, v) => k + " != " + Quote(cs, v)
    case Like(k, pattern, _) => k + " LIKE " + Quote(cs, pattern)
    case In(k, _, repr) => k + " IN (" + repr + ")"
    case Exists(k) => "EXISTS " + k
    case And(l, r) => "(" + Print(cs, l) + " AND " + Print(cs, r) + ")"
    case Or(l, r) => "(" + Print(cs, l) + " OR " + Print(cs, r) + ")"
    case Not(q) => "NOT " + Print(cs, q)
  }
}
