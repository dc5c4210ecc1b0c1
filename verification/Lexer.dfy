/** The lexer of cloudevent/cefilter/lexer.go and the spelling rules it decides. */
module Lexing {
  import opened Wrappers
  import opened Charset

  datatype Token =
    | Eof | Ident(name: string) | Str(val: string) | EqSign | NeSign | LikeWord | InWord | ExistsWord
    | AndWord | OrWord | NotWord | LParen | RParen | Comma
  {
    predicate IsWord()
    {
      Ident? || LikeWord? || InWord? || ExistsWord? || AndWord? || OrWord? || NotWord?
    }
  }

  // ----- how tokens may be spelled -----

  ghost predicate AllSpace(cs: Charset, s: string)
  {
    forall c :: c in s ==> cs.space(c)
  }

  predicate IsWordText(cs: Charset, s: string)
  {
    s != [] && IsWordStart(cs, s[0]) && forall i :: 0 <= i < |s| ==> IsWordChar(cs, s[i])
  }

  /** Reserved words are recognised case-insensitively; every other word is an identifier. */
  function WordToken(cs: Charset, word: string): Token
  {
    var up := ToUpper(cs, word);
    if up == "AND" then AndWord
    else if up == "OR" then OrWord
    else if up == "NOT" then NotWord
    else if up == "LIKE" then LikeWord
    else if up == "IN" then InWord
    else if up == "EXISTS" then ExistsWord
    else Ident(word)
  }

  /** body spells val between quotes q: any rune may follow a backslash, q and the backslash must. */
  ghost predicate Escapes(q: char, val: string, body: string)
  {
    if val == [] then body == []
    else
      || (body != [] && body[0] == val[0] && val[0] != q && val[0] != '\\' && Escapes(q, val[1..], body[1..]))
      || (|body| >= 2 && body[0] == '\\' && body[1] == val[0] && Escapes(q, val[1..], body[2..]))
  }

  ghost predicate Lexeme(cs: Charset, t: Token, l: string)
  {
    match t
    case Eof => false
    case LParen => l == "("
    case RParen => l == ")"
    case Comma => l == ","
    case EqSign => l == "="
    case NeSign => l == "!="
    case Str(v) => |l| >= 2 && (l[0] == '"' || l[0] == '\'') && l[|l| - 1] == l[0] && Escapes(l[0], v, l[1..|l| - 1])
    case _ => IsWordText(cs, l) && WordToken(cs, l) == t
  }

  /** A word must not run into further word characters. */
  ghost predicate Separated(cs: Charset, t: Token, rest: string)
  {
    t.IsWord() && rest != [] ==> !IsWordChar(cs, rest[0])
  }

  /** s starts with white space up to g, then a lexeme of t up to m. */
  ghost predicate Starts(cs: Charset, t: Token, s: string, g: nat, m: nat)
  {
    g < m <= |s| && AllSpace(cs, s[..g]) && Lexeme(cs, t, s[g..m]) && Separated(cs, t, s[m..])
  }

  /** s is a layout of toks: lexemes with any white space around them, and an end-of-input token last. */
  ghost predicate Spells(cs: Charset, toks: seq<Token>, s: string)
  {
    toks != [] &&
    if toks[0] == Eof then |toks| == 1 && AllSpace(cs, s)
    else exists g: nat, m: nat :: Starts(cs, toks[0], s, g, m) && Spells(cs, toks[1..], s[m..])
  }

  lemma {:induction false} SpellsFirst(cs: Charset, toks: seq<Token>, s: string)
    returns (t: Token, ts: seq<Token>, g: nat, m: nat)
    requires Spells(cs, toks, s) && toks[0] != Eof
    ensures toks == [t] + ts && Starts(cs, t, s, g, m) && Spells(cs, ts, s[m..])
  {
    t, ts := toks[0], toks[1..];
    g, m :| Starts(cs, t, s, g, m) && Spells(cs, ts, s[m..]);
  }

  // ----- what the lexer computes -----

  /** What is left after skipWhitespace. */
  function SkipSpace(cs: Charset, s: string): (r: string)
    ensures |r| <= |s|
  {
    if s != [] && cs.space(s[0]) then SkipSpace(cs, s[1..]) else s
  }

  /** The length of the longest run of word characters at the start of s. */
  function WordLen(cs: Charset, s: string): (n: nat)
    ensures n <= |s|
    ensures forall i :: 0 <= i < n ==> IsWordChar(cs, s[i])
    ensures n < |s| ==> !IsWordChar(cs, s[n])
  {
    if s != [] && IsWordChar(cs, s[0]) then 1 + WordLen(cs, s[1..]) else 0
  }

  function WithFirst(c: char, r: Option<(string, string)>): Option<(string, string)>
  {
    if r.Some? then Some(([c] + r.value.0, r.value.1)) else None
  }

  /** The value of the string literal whose body starts s, and the input after its closing quote. */
  function StringBody(s: string, q: char): (r: Option<(string, string)>)
    ensures r.Some? ==> |r.value.1| < |s|
  {
    if s == [] then None
    else if s[0] == q then Some(("", s[1..]))
    else if s[0] == '\\' && |s| > 1 then WithFirst(s[1], StringBody(s[2..], q))
    else WithFirst(s[0], StringBody(s[1..], q))
  }

  /** One turn of tokenize, at a character that is not white space. */
  function NextToken(cs: Charset, s: string): (r: Option<(Token, string)>)
    requires s != []
    ensures r.Some? ==> |r.value.1| < |s|
  {
    var ch := s[0];
    if ch == '(' then Some((LParen, s[1..]))
    else if ch == ')' then Some((RParen, s[1..]))
    else if ch == ',' then Some((Comma, s[1..]))
    else if ch == '!' && |s| > 1 && s[1] == '=' then Some((NeSign, s[2..]))
    else if ch == '=' then Some((EqSign, s[1..]))
    else if ch == '"' || ch == '\'' then
      var b := StringBody(s[1..], ch);
      if b.Some? then Some((Str(b.value.0), b.value.1)) else None
    else if IsWordStart(cs, ch) then
      var n := WordLen(cs, s);
      Some((WordToken(cs, s[..n]), s[n..]))
    else None
  }

  /** The token list of s, ended by Eof, or None when lexing fails. */
  function Tokens(cs: Charset, s: string): Option<seq<Token>>
    decreases |s|
  {
    var r := SkipSpace(cs, s);
    if r == [] then Some([Eof])
    else
      var next := NextToken(cs, r);
      if next.None? then None
      else
        var rest := Tokens(cs, next.value.1);
        if rest.None? then None else Some([next.value.0] + rest.value)
  }

  // ----- the lexer decides the spelling rules -----

  lemma {:induction false} StringBodySound(s: string, q: char) returns (body: string)
    requires StringBody(s, q).Some? && q != '\\'
    ensures var (v, rest) := StringBody(s, q).value; s == body + [q] + rest && Escapes(q, v, body)
  {
    if s[0] == q {
      body := [];
    } else {
      var escaped := s[0] == '\\' && |s| > 1;
      var head := if escaped then s[..2] else s[..1];
      var tail := if escaped then s[2..] else s[1..];
      var b := StringBodySound(tail, q);
      body := head + b;
      assert body[|head|..] == b;
      assert s == head + tail;
      assert head + (b + [q] + StringBody(tail, q).value.1) == body + [q] + StringBody(tail, q).value.1;
      assert StringBody(s, q).value.0[1..] == StringBody(tail, q).value.0;
    }
  }

  lemma {:induction false} StringBodyComplete(q: char, v: string, body: string, rest: string)
    requires Escapes(q, v, body) && q != '\\'
    ensures StringBody(body + [q] + rest, q) == Some((v, rest))
  {
    var s := body + [q] + rest;
    assert v != [] ==> v == [v[0]] + v[1..];
    if v == [] {
      assert s[1..] == rest;
    } else if body[0] == '\\' {
      assert s[2..] == body[2..] + [q] + rest;
      StringBodyComplete(q, v[1..], body[2..], rest);
    } else {
      assert s[1..] == body[1..] + [q] + rest;
      StringBodyComplete(q, v[1..], body[1..], rest);
    }
  }

  lemma WordTokenIsWord(cs: Charset, w: string)
    ensures WordToken(cs, w).IsWord()
  {
  }

  lemma NextStringSound(cs: Charset, s: string) returns (m: nat)
    requires s != [] && (s[0] == '"' || s[0] == '\'') && NextToken(cs, s).Some?
    ensures var (t, rest) := NextToken(cs, s).value;
            0 < m <= |s| && rest == s[m..] && t.Str? && Lexeme(cs, t, s[..m])
  {
    var q := s[0];
    var body := StringBodySound(s[1..], q);
    m := |body| + 2;
    assert s == [q] + body + [q] + StringBody(s[1..], q).value.1;
    assert s[..m] == [q] + body + [q];
    assert s[..m][1..m - 1] == body;
  }

  lemma NextWordSound(cs: Charset, s: string)
    requires s != [] && IsWordStart(cs, s[0])
    ensures var m := WordLen(cs, s);
            && 0 < m && NextToken(cs, s) == Some((WordToken(cs, s[..m]), s[m..]))
            && IsWordText(cs, s[..m]) && WordToken(cs, s[..m]).IsWord()
  {
    assert !IsPunctuation(s[0]);
    WordTokenIsWord(cs, s[..WordLen(cs, s)]);
  }

  lemma NextSignSound(cs: Charset, s: string)
    requires s != [] && s[0] != '"' && s[0] != '\'' && !IsWordStart(cs, s[0]) && NextToken(cs, s).Some?
    ensures var m := if s[0] == '!' then 2 else 1;
            && m <= |s| && NextToken(cs, s).value.1 == s[m..] && !NextToken(cs, s).value.0.IsWord()
            && Lexeme(cs, NextToken(cs, s).value.0, s[..m])
  {
  }

  lemma {:induction false} NextTokenSound(cs: Charset, s: string) returns (m: nat)
    requires s != [] && NextToken(cs, s).Some?
    ensures var (t, rest) := NextToken(cs, s).value;
            0 < m <= |s| && rest == s[m..] && t != Eof && Lexeme(cs, t, s[..m]) && Separated(cs, t, rest)
  {
    if s[0] == '"' || s[0] == '\'' {
      m := NextStringSound(cs, s);
    } else if IsWordStart(cs, s[0]) {
      m := WordLen(cs, s);
      NextWordSound(cs, s);
    } else {
      m := if s[0] == '!' then 2 else 1;
      NextSignSound(cs, s);
    }
  }

  lemma {:induction false} WordLenIs(cs: Charset, w: string, rest: string)
    requires forall i :: 0 <= i < |w| ==> IsWordChar(cs, w[i])
    requires rest != [] ==> !IsWordChar(cs, rest[0])
    ensures WordLen(cs, w + rest) == |w|
  {
    assert forall i :: 0 <= i < |w| ==> (w + rest)[i] == w[i];
    assert rest != [] ==> (w + rest)[|w|] == rest[0];
  }

  lemma NextString(cs: Charset, v: string, l: string, rest: string)
    requires Lexeme(cs, Str(v), l)
    ensures !cs.space(l[0]) && NextToken(cs, l + rest) == Some((Str(v), rest))
  {
    var q := l[0];
    assert IsPunctuation(q);
    assert l == [q] + l[1..|l| - 1] + [q];
    assert (l + rest)[1..] == l[1..|l| - 1] + [q] + rest;
    StringBodyComplete(q, v, l[1..|l| - 1], rest);
  }

  lemma NextWord(cs: Charset, l: string, rest: string)
    requires IsWordText(cs, l) && (rest != [] ==> !IsWordChar(cs, rest[0]))
    ensures !cs.space(l[0]) && NextToken(cs, l + rest) == Some((WordToken(cs, l), rest))
  {
    WordLenIs(cs, l, rest);
    assert !IsPunctuation(l[0]);
    assert (l + rest)[0] == l[0] && (l + rest)[..|l|] == l && (l + rest)[|l|..] == rest;
  }

  lemma NextTokenComplete(cs: Charset, t: Token, l: string, rest: string)
    requires Lexeme(cs, t, l) && Separated(cs, t, rest)
    ensures l != [] && !cs.space(l[0]) && NextToken(cs, l + rest) == Some((t, rest))
  {
    if t.Str? {
      NextString(cs, t.val, l, rest);
    } else if t.IsWord() {
      NextWord(cs, l, rest);
    } else {
      assert IsPunctuation(l[0]);
      assert (l + rest)[|l|..] == rest;
    }
  }

  lemma {:induction false} SkipSpaceSound(cs: Charset, s: string) returns (g: nat)
    ensures g <= |s| && AllSpace(cs, s[..g]) && s[g..] == SkipSpace(cs, s)
    ensures g < |s| ==> !cs.space(s[g])
  {
    if s != [] && cs.space(s[0]) {
      g := SkipSpaceSound(cs, s[1..]);
      g := g + 1;
      assert s[..g] == [s[0]] + s[1..][..g - 1];
      assert s[g..] == s[1..][g - 1..];
    } else {
      g := 0;
      assert s[..0] == [];
    }
  }

  lemma {:induction false} SkipSpaceComplete(cs: Charset, gap: string, rest: string)
    requires AllSpace(cs, gap) && (rest != [] ==> !cs.space(rest[0]))
    ensures SkipSpace(cs, gap + rest) == rest
  {
    if gap == [] {
      assert gap + rest == rest;
    } else {
      assert (gap + rest)[1..] == gap[1..] + rest;
      SkipSpaceComplete(cs, gap[1..], rest);
    }
  }

  lemma {:induction false} TokensSound(cs: Charset, s: string)
    requires Tokens(cs, s).Some?
    ensures Spells(cs, Tokens(cs, s).value, s)
    decreases |s|
  {
    var toks := Tokens(cs, s).value;
    var g := SkipSpaceSound(cs, s);
    var r := SkipSpace(cs, s);
    if r == [] {
      assert s[..g] == s;
    } else {
      var k := NextTokenSound(cs, r);
      var m := g + k;
      assert s[g..m] == r[..k] && s[m..] == r[k..];
      TokensSound(cs, s[m..]);
      assert Starts(cs, toks[0], s, g, m);
      assert toks[1..] == Tokens(cs, s[m..]).value;
    }
  }

  lemma {:induction false} TokensComplete(cs: Charset, toks: seq<Token>, s: string)
    requires Spells(cs, toks, s)
    ensures Tokens(cs, s) == Some(toks)
  {
    if toks[0] == Eof {
      assert s + [] == s && toks == [Eof];
      SkipSpaceComplete(cs, s, []);
    } else {
      var t, ts, g, m := SpellsFirst(cs, toks, s);
      FirstToken(cs, t, s, g, m);
      TokensComplete(cs, ts, s[m..]);
    }
  }

  lemma FirstToken(cs: Charset, t: Token, s: string, g: nat, m: nat)
    requires Starts(cs, t, s, g, m)
    ensures s[g..] != [] && SkipSpace(cs, s) == s[g..] && NextToken(cs, s[g..]) == Some((t, s[m..]))
  {
    var gap, l, rest := s[..g], s[g..m], s[m..];
    NextTokenComplete(cs, t, l, rest);
    assert s[g..] == l + rest;
    SkipToLexeme(cs, gap, l + rest);
    assert s == gap + (l + rest);
  }

  lemma SkipToLexeme(cs: Charset, gap: string, rest: string)
    requires AllSpace(cs, gap) && rest != [] && !cs.space(rest[0])
    ensures SkipSpace(cs, gap + rest) == rest
  {
    SkipSpaceComplete(cs, gap, rest);
  }

  /** lex succeeds with a token list exactly when the input is a layout of that list. */
  lemma LexerIsCorrect(cs: Charset, s: string, toks: seq<Token>)
    ensures Tokens(cs, s) == Some(toks) <==> Spells(cs, toks, s)
  {
    if Tokens(cs, s) == Some(toks) { TokensSound(cs, s); }
    if Spells(cs, toks, s) { TokensComplete(cs, toks, s); }
  }

  ghost predicate IsIdent(cs: Charset, name: string)
  {
    IsWordText(cs, name) && WordToken(cs, name) == Ident(name)
  }

  ghost predicate GoodIdents(cs: Charset, ts: seq<Token>)
  {
    forall t: Token :: t in ts && t.Ident? ==> IsIdent(cs, t.name)
  }

  /** Eof only ends the list, and identifiers leave the lexer spelled as words that are not reserved. */
  lemma {:induction false} LexedTokensAreGood(cs: Charset, toks: seq<Token>, s: string) returns (ts: seq<Token>)
    requires Spells(cs, toks, s)
    ensures toks == ts + [Eof] && Eof !in ts && GoodIdents(cs, ts)
  {
    if toks[0] == Eof {
      ts := [];
    } else {
      var t, rest, g, m := SpellsFirst(cs, toks, s);
      var us := LexedTokensAreGood(cs, rest, s[m..]);
      ts := [t] + us;
      LexemeIdent(cs, t, s[g..m]);
    }
  }

  lemma LexemeIdent(cs: Charset, t: Token, l: string)
    requires Lexeme(cs, t, l)
    ensures t != Eof && (t.Ident? ==> IsIdent(cs, t.name))
  {
  }

  // ----- the lexer itself -----

  class Lexer {
    const cs: Charset
    const input: string
    var pos: nat
    var toks: seq<Token>
    var failed: bool

    constructor (cs: Charset, input: string)
      ensures this.cs == cs && this.input == input && pos == 0 && toks == [] && !failed
    {
      this.cs := cs;
      this.input := input;
      pos, toks, failed := 0, [], false;
    }

    method SkipWhitespace()
      requires pos <= |input|
      modifies `pos
      ensures pos <= |input|
      ensures input[pos..] == SkipSpace(cs, old(input[pos..]))
    {
      while pos < |input| && cs.space(input[pos])
        invariant pos <= |input|
        invariant SkipSpace(cs, input[pos..]) == SkipSpace(cs, old(input[pos..]))
      {
        assert input[pos..][1..] == input[pos + 1..];
        pos := pos + 1;
      }
    }

    method ReadWord() returns (word: string)
      requires pos <= |input|
      modifies `pos
      ensures old(pos) <= pos <= |input|
      ensures pos == old(pos) + WordLen(cs, old(input[pos..]))
      ensures word == old(input[pos..])[..WordLen(cs, old(input[pos..]))]
    {
      var start := pos;
      while pos < |input| && IsWordChar(cs, input[pos])
        invariant start <= pos <= |input|
        invariant WordLen(cs, input[start..]) == pos - start + WordLen(cs, input[pos..])
      {
        assert input[pos..][1..] == input[pos + 1..];
        pos := pos + 1;
      }
      word := input[start..pos];
      assert word == input[start..][..pos - start];
    }

    method ReadString(quote: char) returns (val: Option<string>)
      requires pos < |input|
      modifies `pos
      ensures pos <= |input|
      ensures val.None? <==> StringBody(old(input[pos + 1..]), quote).None?
      ensures val.Some? ==> StringBody(old(input[pos + 1..]), quote) == Some((val.value, input[pos..]))
    {
      pos := pos + 1;
      ghost var start := pos;
      var sb := "";
      assert Continues(sb, StringBody(input[pos..], quote), StringBody(input[start..], quote)) by {
        var r := StringBody(input[pos..], quote);
        if r.Some? { assert "" + r.value.0 == r.value.0; }
      }
      while pos < |input|
        invariant start <= pos <= |input|
        invariant Continues(sb, StringBody(input[pos..], quote), StringBody(input[start..], quote))
      {
        var ch := input[pos];
        ghost var rest := input[pos..];
        ghost var whole := StringBody(input[start..], quote);
        assert rest[1..] == input[pos + 1..];
        if ch == quote {
          pos := pos + 1;
          assert sb + [] == sb;
          return Some(sb);
        }
        if ch == '\\' && pos + 1 < |input| {
          assert rest[2..] == input[pos + 2..];
          ContinuesStep(sb, input[pos + 1], StringBody(rest[2..], quote), whole);
          pos := pos + 1;
          sb := sb + [input[pos]];
          pos := pos + 1;
        } else {
          ContinuesStep(sb, ch, StringBody(rest[1..], quote), whole);
          sb := sb + [ch];
          pos := pos + 1;
        }
      }
      return None;
    }

    /** Having read sb, reading on with result r gives result whole. */
    static ghost predicate Continues(sb: string, r: Option<(string, string)>, whole: Option<(string, string)>)
    {
      whole == if r.Some? then Some((sb + r.value.0, r.value.1)) else None
    }

    static lemma ContinuesStep(sb: string, c: char, r: Option<(string, string)>, whole: Option<(string, string)>)
      requires Continues(sb, WithFirst(c, r), whole)
      ensures Continues(sb + [c], r, whole)
    {
      if r.Some? { assert sb + ([c] + r.value.0) == sb + [c] + r.value.0; }
    }

    /** One token, from a character that is not white space. */
    method ReadToken() returns (t: Option<Token>)
      requires pos < |input|
      modifies `pos
      ensures pos <= |input|
      ensures t.None? <==> NextToken(cs, old(input[pos..])).None?
      ensures t.Some? ==> NextToken(cs, old(input[pos..])) == Some((t.value, input[pos..]))
    {
      ghost var s := input[pos..];
      var ch := input[pos];
      assert s[1..] == input[pos + 1..];
      if ch == '(' {
        pos := pos + 1;
        t := Some(LParen);
      } else if ch == ')' {
        pos := pos + 1;
        t := Some(RParen);
      } else if ch == ',' {
        pos := pos + 1;
        t := Some(Comma);
      } else if ch == '!' && pos + 1 < |input| && input[pos + 1] == '=' {
        assert s[2..] == input[pos + 2..];
        pos := pos + 2;
        t := Some(NeSign);
      } else if ch == '=' {
        pos := pos + 1;
        t := Some(EqSign);
      } else if ch == '"' || ch == '\'' {
        var v := ReadString(ch);
        t := if v.Some? then Some(Str(v.value)) else None;
      } else if IsWordStart(cs, ch) {
        var word := ReadWord();
        assert s[WordLen(cs, s)..] == input[pos..];
        t := Some(WordToken(cs, word));
      } else {
        t := None;
      }
    }

    /** With toks emitted and rest still to come, the whole list is whole. */
    static ghost predicate Remain(toks: seq<Token>, rest: Option<seq<Token>>, whole: Option<seq<Token>>)
    {
      whole == if rest.Some? then Some(toks + rest.value) else None
    }

    static lemma RemainStart(whole: Option<seq<Token>>)
      ensures Remain([], whole, whole)
    {
      if whole.Some? { assert [] + whole.value == whole.value; }
    }

    static lemma RemainStep(toks: seq<Token>, t: Token, rest: Option<seq<Token>>, whole: Option<seq<Token>>)
      requires Remain(toks, if rest.None? then None else Some([t] + rest.value), whole)
      ensures Remain(toks + [t], rest, whole)
    {
      if rest.Some? { assert toks + ([t] + rest.value) == toks + [t] + rest.value; }
    }

    /** tokenize: fails exactly when the input has no token list, and otherwise leaves it in toks. */
    method Tokenize()
      requires pos == 0 && toks == [] && !failed
      modifies this
      ensures failed <==> Tokens(cs, input).None?
      ensures !failed ==> Tokens(cs, input) == Some(toks)
    {
      assert input[0..] == input;
      RemainStart(Tokens(cs, input));
      while true
        invariant pos <= |input| && !failed
        invariant Remain(toks, Tokens(cs, input[pos..]), Tokens(cs, input))
        decreases |input| - pos
      {
        SkipWhitespace();
        if pos >= |input| {
          toks := toks + [Eof];
          return;
        }
        var t := ReadToken();
        if t.None? {
          failed := true;
          return;
        }
        RemainStep(toks, t.value, Tokens(cs, input[pos..]), Tokens(cs, input));
        toks := toks + [t.value];
      }
    }
  }

  /** lex. */
  method Lex(cs: Charset, input: string) returns (toks: Option<seq<Token>>)
    ensures toks == Tokens(cs, input)
    ensures toks.Some? ==> Spells(cs, toks.value, input)
    ensures toks.None? ==> forall ts :: !Spells(cs, ts, input)
  {
    var l := new Lexer(cs, input);
    l.Tokenize();
    toks := if l.failed then None else Some(l.toks);
    if toks.Some? {
      TokensSound(cs, input);
    } else {
      forall ts ensures !Spells(cs, ts, input) { LexerIsCorrect(cs, input, ts); }
    }
  }
}
