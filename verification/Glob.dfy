/**
 LIKE patterns: the glob compiler of cloudevent/cefilter/filter.go, the regular
 expressions it writes, and the glob semantics it is documented to have.
 */
module Glob {
  import opened Wrappers

  /** What a compiled pattern is made of: a quoted rune, `.` or `.*`. */
  datatype Item = Literal(c: char) | AnyChar | AnyRun

  /** An expression anchored at both ends. */
  type Regexp = seq<Item>

  /** `.` does not match a newline: the patterns are compiled without the s flag. */
  predicate ItemAccepts(item: Item, piece: string)
  {
    match item
    case Literal(c) => piece == [c]
    case AnyChar => |piece| == 1 && piece[0] != '\n'
    case AnyRun => '\n' !in piece
  }

  /** MatchString: the value splits into pieces, one for each item. */
  predicate Accepts(rx: Regexp, s: string)
  {
    if rx == [] then s == []
    else exists k :: 0 <= k <= |s| && ItemAccepts(rx[0], s[..k]) && Accepts(rx[1..], s[k..])
  }

  /** The documented meaning: `*` is any sequence of characters, `?` exactly one. */
  predicate GlobMatch(pattern: string, s: string)
    decreases |pattern|, |s|
  {
    if pattern == [] then s == []
    else if pattern[0] == '*' then
      GlobMatch(pattern[1..], s) || (s != [] && GlobMatch(pattern, s[1..]))
    else s != [] && (pattern[0] == '?' || pattern[0] == s[0]) && GlobMatch(pattern[1..], s[1..])
  }

  function ItemOf(ch: char): Item
  {
    if ch == '*' then AnyRun else if ch == '?' then AnyChar else Literal(ch)
  }

  function Items(pattern: string): Regexp
  {
    seq(|pattern|, i requires 0 <= i < |pattern| => ItemOf(pattern[i]))
  }

  // ----- the text the compiler writes and the regexp package reads -----

  /** The runes regexp.QuoteMeta puts a backslash before. */
  predicate IsMeta(ch: char)
  {
    ch in "\\.+*?()|[]{}^$"
  }

  function QuoteMeta(ch: char): string
  {
    if IsMeta(ch) then ['\\', ch] else [ch]
  }

  function ItemText(ch: char): string
  {
    if ch == '*' then ".*" else if ch == '?' then "." else QuoteMeta(ch)
  }

  function Text(pattern: string): string
  {
    if pattern == [] then [] else ItemText(pattern[0]) + Text(pattern[1..])
  }

  /** The runes with a meaning of their own in Go's regexp syntax, of which a backslash makes literals. */
  predicate IsSpecial(ch: char)
  {
    || ch == '\\' || ch == '.' || ch == '+' || ch == '*' || ch == '?' || ch == '(' || ch == ')' || ch == '|'
    || ch == '[' || ch == ']' || ch == '{' || ch == '}' || ch == '^' || ch == '$'
  }

  /** The part of Go's regexp syntax used here: `\` before a special rune, `.`, `.*`, plain runes, `\z`. */
  function ReadItems(t: string): Option<Regexp>
  {
    if t == "\\z" then Some([])
    else if |t| >= 2 && t[0] == '\\' && IsSpecial(t[1]) then Prepend(Literal(t[1]), ReadItems(t[2..]))
    else if |t| >= 2 && t[0] == '.' && t[1] == '*' then Prepend(AnyRun, ReadItems(t[2..]))
    else if |t| >= 1 && t[0] == '.' then Prepend(AnyChar, ReadItems(t[1..]))
    else if |t| >= 1 && !IsSpecial(t[0]) then Prepend(Literal(t[0]), ReadItems(t[1..]))
    else None
  }

  function Prepend(item: Item, rest: Option<Regexp>): Option<Regexp>
  {
    match rest
    case None => None
    case Some(items) => Some([item] + items)
  }

  function ReadRegexp(t: string): Option<Regexp>
  {
    if |t| >= 2 && t[..2] == "\\A" then ReadItems(t[2..]) else None
  }

  /** globToRegexp: the text written rune by rune reads back as one item per rune. */
  method GlobToRegexp(pattern: string) returns (text: string)
    ensures ReadRegexp(text) == Some(Items(pattern))
  {
    text := "\\A";
    for i := 0 to |pattern|
      invariant text == "\\A" + Text(pattern[..i])
    {
      TextSnoc(pattern[..i], pattern[i]);
      assert pattern[..i] + [pattern[i]] == pattern[..i + 1];
      var item;
      if pattern[i] == '*' {
        item := ".*";
      } else if pattern[i] == '?' {
        item := ".";
      } else {
        item := QuoteMeta(pattern[i]);
      }
      assert item == ItemText(pattern[i]);
      text := text + item;
    }
    assert pattern[..|pattern|] == pattern;
    text := text + "\\z";
    ReadsBack(pattern, text);
  }

  lemma ReadsBack(pattern: string, text: string)
    requires text == "\\A" + Text(pattern) + "\\z"
    ensures ReadRegexp(text) == Some(Items(pattern))
  {
    assert text[2..] == Text(pattern) + "\\z" && text[..2] == "\\A";
    TextReadsBack(pattern);
  }

  lemma {:induction false} TextSnoc(pattern: string, ch: char)
    ensures Text(pattern + [ch]) == Text(pattern) + ItemText(ch)
  {
    if pattern == [] {
      assert Text([ch]) == ItemText(ch) + Text([]);
    } else {
      assert (pattern + [ch])[1..] == pattern[1..] + [ch];
      TextSnoc(pattern[1..], ch);
    }
  }

  lemma {:induction false} ReadOneItem(ch: char, rest: string)
    requires |rest| >= 2 && rest[0] != '*'
    ensures ReadItems(ItemText(ch) + rest) == Prepend(ItemOf(ch), ReadItems(rest))
  {
    var t := ItemText(ch) + rest;
    assert t[|ItemText(ch)|..] == rest;
    assert |t| >= 3;
    if !IsMeta(ch) {
      assert t[0] == ch && t[0] != '\\' && t[0] != '.';
    }
  }

  lemma {:induction false} TextReadsBack(pattern: string)
    ensures ReadItems(Text(pattern) + "\\z") == Some(Items(pattern))
  {
    if pattern == [] {
      assert Text(pattern) + "\\z" == "\\z";
    } else {
      var rest := Text(pattern[1..]) + "\\z";
      assert Text(pattern) + "\\z" == ItemText(pattern[0]) + rest;
      TextStart(pattern[1..]);
      ReadOneItem(pattern[0], rest);
      TextReadsBack(pattern[1..]);
      assert Items(pattern) == [ItemOf(pattern[0])] + Items(pattern[1..]);
    }
  }

  /** No item's text begins with a bare star, so `.` is never read together with its successor. */
  lemma TextStart(pattern: string)
    ensures |Text(pattern) + "\\z"| >= 2
    ensures (Text(pattern) + "\\z")[0] != '*'
  {
  }

  // ----- the compiled expression against the glob semantics -----

  /** A split of a value between the first item and the others. */
  lemma AcceptsSplit(rx: Regexp, s: string, k: nat)
    requires rx != [] && k <= |s| && ItemAccepts(rx[0], s[..k]) && Accepts(rx[1..], s[k..])
    ensures Accepts(rx, s)
  {
  }

  lemma AnyRunGrows(rx: Regexp, s: string)
    requires rx != [] && rx[0] == AnyRun && s != [] && s[0] != '\n' && Accepts(rx, s[1..])
    ensures Accepts(rx, s)
  {
    var k :| 0 <= k <= |s[1..]| && ItemAccepts(rx[0], s[1..][..k]) && Accepts(rx[1..], s[1..][k..]);
    assert s[..k + 1] == [s[0]] + s[1..][..k] && s[k + 1..] == s[1..][k..];
    AcceptsSplit(rx, s, k + 1);
  }

  lemma AnyRunShrinks(rx: Regexp, s: string)
    requires rx != [] && rx[0] == AnyRun && Accepts(rx, s) && !Accepts(rx[1..], s)
    ensures s != [] && s[0] != '\n' && Accepts(rx, s[1..])
  {
    var k :| 0 <= k <= |s| && ItemAccepts(rx[0], s[..k]) && Accepts(rx[1..], s[k..]);
    assert s[0..] == s;
    assert s[..k][0] == s[0];
    assert s[1..][..k - 1] == s[..k][1..] && s[1..][k - 1..] == s[k..];
    AcceptsSplit(rx, s[1..], k - 1);
  }

  lemma AcceptsAnyRun(rx: Regexp, s: string)
    requires rx != [] && rx[0] == AnyRun
    ensures Accepts(rx, s) <==>
            Accepts(rx[1..], s) || (s != [] && s[0] != '\n' && Accepts(rx, s[1..]))
  {
    if Accepts(rx[1..], s) {
      assert s[..0] == [] && s[0..] == s;
      AcceptsSplit(rx, s, 0);
    } else {
      if s != [] && s[0] != '\n' && Accepts(rx, s[1..]) { AnyRunGrows(rx, s); }
      if Accepts(rx, s) { AnyRunShrinks(rx, s); }
    }
  }

  lemma AcceptsOne(rx: Regexp, s: string)
    requires rx != [] && rx[0] != AnyRun
    ensures Accepts(rx, s) <==> s != [] && ItemAccepts(rx[0], [s[0]]) && Accepts(rx[1..], s[1..])
  {
    if s != [] {
      assert s[..1] == [s[0]];
    }
  }

  function Newlines(s: string): nat { multiset(s)['\n'] }

  function LiteralNewlines(rx: Regexp): nat { multiset(rx)[Literal('\n')] }

  lemma NewlinesCons(s: string)
    requires s != []
    ensures Newlines(s) == Newlines(s[1..]) + if s[0] == '\n' then 1 else 0
  {
    assert s == [s[0]] + s[1..];
  }

  lemma LiteralNewlinesCons(pattern: string)
    requires pattern != []
    ensures LiteralNewlines(Items(pattern)) ==
            LiteralNewlines(Items(pattern[1..])) + if pattern[0] == '\n' then 1 else 0
  {
    assert Items(pattern) == [ItemOf(pattern[0])] + Items(pattern[1..]);
  }

  /** A value the glob matches holds at least the newlines its pattern spells out. */
  lemma {:induction false} MatchHoldsNewlines(pattern: string, s: string)
    requires GlobMatch(pattern, s)
    ensures Newlines(s) >= LiteralNewlines(Items(pattern))
    decreases |pattern|, |s|
  {
    if pattern != [] {
      LiteralNewlinesCons(pattern);
      if s != [] { NewlinesCons(s); }
      if pattern[0] != '*' {
        MatchHoldsNewlines(pattern[1..], s[1..]);
      } else if GlobMatch(pattern[1..], s) {
        MatchHoldsNewlines(pattern[1..], s);
      } else {
        MatchHoldsNewlines(pattern, s[1..]);
      }
    }
  }

  /** A pattern spells out the newlines it holds. */
  lemma {:induction false} LiteralNewlinesOf(pattern: string)
    ensures LiteralNewlines(Items(pattern)) == Newlines(pattern)
  {
    if pattern != [] {
      LiteralNewlinesCons(pattern);
      NewlinesCons(pattern);
      LiteralNewlinesOf(pattern[1..]);
    }
  }

  /** The compiled expression decides the documented glob semantics, except that no wildcard stands for a newline. */
  lemma {:induction false} CompiledGlobIsCorrect(pattern: string, s: string)
    ensures Accepts(Items(pattern), s) <==> GlobMatch(pattern, s) && Newlines(s) == LiteralNewlines(Items(pattern))
    decreases |pattern|, |s|
  {
    if pattern != [] {
      var rx := Items(pattern);
      assert rx[1..] == Items(pattern[1..]);
      LiteralNewlinesCons(pattern);
      if s != [] { NewlinesCons(s); }
      if pattern[0] == '*' {
        AcceptsAnyRun(rx, s);
        CompiledGlobIsCorrect(pattern[1..], s);
        if s != [] {
          CompiledGlobIsCorrect(pattern, s[1..]);
          if GlobMatch(pattern, s[1..]) { MatchHoldsNewlines(pattern, s[1..]); }
        }
      } else {
        AcceptsOne(rx, s);
        if s != [] {
          CompiledGlobIsCorrect(pattern[1..], s[1..]);
          if GlobMatch(pattern[1..], s[1..]) { MatchHoldsNewlines(pattern[1..], s[1..]); }
        }
      }
    }
  }

  /** A value is treated as documented by every pattern exactly when it holds no newline. */
  lemma ValueMatchedAsDocumentedIff(s: string)
    ensures (forall pattern :: Accepts(Items(pattern), s) == GlobMatch(pattern, s)) <==> '\n' !in s
  {
    if '\n' !in s {
      forall pattern ensures Accepts(Items(pattern), s) == GlobMatch(pattern, s) {
        CompiledGlobIsCorrect(pattern, s);
        if GlobMatch(pattern, s) { MatchHoldsNewlines(pattern, s); }
      }
    } else {
      StarMatchesEverything(s);
      CompiledGlobIsCorrect("*", s);
    }
  }

  lemma {:induction false} StarMatchesEverything(s: string)
    ensures GlobMatch("*", s)
  {
    if s != [] { StarMatchesEverything(s[1..]); }
  }

  /** An accepted value holds exactly the newlines its pattern spells out. */
  lemma {:induction false} NewlinesAreLiteral(rx: Regexp, s: string)
    ensures Accepts(rx, s) ==> Newlines(s) == LiteralNewlines(rx)
  {
    if rx != [] && Accepts(rx, s) {
      var k :| 0 <= k <= |s| && ItemAccepts(rx[0], s[..k]) && Accepts(rx[1..], s[k..]);
      NewlinesAreLiteral(rx[1..], s[k..]);
      assert s == s[..k] + s[k..] && rx == [rx[0]] + rx[1..];
    }
  }

  /** A pattern treats every value as documented exactly when it has no wildcard. */
  lemma PatternMatchesAsDocumentedIff(pattern: string)
    ensures (forall s :: Accepts(Items(pattern), s) == GlobMatch(pattern, s)) <==> '*' !in pattern && '?' !in pattern
  {
    if '*' !in pattern && '?' !in pattern {
      forall s ensures Accepts(Items(pattern), s) == GlobMatch(pattern, s) {
        PlainPattern(pattern, s);
        CompiledGlobIsCorrect(pattern, s);
      }
    } else {
      var s := NewlineForWildcard(pattern);
      CompiledGlobIsCorrect(pattern, s);
      assert Accepts(Items(pattern), s) != GlobMatch(pattern, s);
    }
  }

  /** Without a wildcard the compiled pattern accepts its own text and nothing else. */
  lemma {:induction false} PlainAcceptsItself(pattern: string, s: string)
    requires '*' !in pattern && '?' !in pattern
    ensures Accepts(Items(pattern), s) <==> s == pattern
  {
    if pattern != [] {
      assert Items(pattern)[1..] == Items(pattern[1..]);
      AcceptsOne(Items(pattern), s);
      if s != [] {
        PlainAcceptsItself(pattern[1..], s[1..]);
        assert s == [s[0]] + s[1..] && pattern == [pattern[0]] + pattern[1..];
      }
    }
  }

  /** Without a wildcard a matched value holds the pattern's newlines. */
  lemma {:induction false} PlainPattern(pattern: string, s: string)
    requires '*' !in pattern && '?' !in pattern
    ensures GlobMatch(pattern, s) ==> Newlines(s) == LiteralNewlines(Items(pattern))
  {
    if pattern != [] && GlobMatch(pattern, s) {
      PlainPattern(pattern[1..], s[1..]);
      NewlinesCons(s);
      LiteralNewlinesCons(pattern);
    }
  }

  /** The value with a newline in place of each wildcard: the glob matches it, and it has too many newlines. */
  lemma {:induction false} NewlineForWildcard(pattern: string) returns (s: string)
    ensures GlobMatch(pattern, s)
    ensures Newlines(s) >= LiteralNewlines(Items(pattern))
    ensures '*' in pattern || '?' in pattern ==> Newlines(s) > LiteralNewlines(Items(pattern))
  {
    if pattern == [] {
      s := [];
    } else {
      var rest := NewlineForWildcard(pattern[1..]);
      var ch := if ItemOf(pattern[0]).Literal? then pattern[0] else '\n';
      s := [ch] + rest;
      assert s[1..] == rest;
      assert Items(pattern) == [ItemOf(pattern[0])] + Items(pattern[1..]);
    }
  }
}
