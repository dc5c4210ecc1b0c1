/** Words of the expression language: what they are made of, and that reserved words may be written in any case. */
module Respelling {
  import opened Wrappers
  import opened Charset
  import opened Lexing
  import opened Filters
  import opened Parsing

  // ----- one word -----

  /** A letter or an underscore, then letters, digits, underscores, dashes and dots. */
  predicate IsSpelledWord(cs: Charset, w: string)
  {
    && w != "" && (cs.letter(w[0]) || w[0] == '_')
    && forall i :: 0 <= i < |w| ==> cs.letter(w[i]) || cs.digit(w[i]) || w[i] == '_' || w[i] == '-' || w[i] == '.'
  }

  /** w is r, letter by letter in upper or lower case. */
  predicate IsCaseOf(cs: Charset, w: string, r: string)
  {
    |w| == |r| && forall i :: 0 <= i < |w| ==> cs.upper(w[i]) == r[i]
  }

  /** The reserved words and their tokens. */
  predicate IsReserved(r: string, t: Token)
  {
    || (r == "AND" && t == AndWord) || (r == "OR" && t == OrWord) || (r == "NOT" && t == NotWord)
    || (r == "LIKE" && t == LikeWord) || (r == "IN" && t == InWord) || (r == "EXISTS" && t == ExistsWord)
  }

  lemma CaseIsUpper(cs: Charset, w: string, r: string)
    ensures IsCaseOf(cs, w, r) <==> ToUpper(cs, w) == r
  {
  }

  lemma OneWord(cs: Charset, w: string)
    requires IsSpelledWord(cs, w)
    ensures Tokens(cs, w) == Some([WordToken(cs, w), Eof])
  {
    assert w + "" == w;
    NextWord(cs, w, "");
    assert Tokens(cs, "") == Some([Eof]);
    assert [WordToken(cs, w)] + [Eof] == [WordToken(cs, w), Eof];
  }

  /** A reserved word in any case is its token. */
  lemma ReservedInAnyCase(cs: Charset, w: string, r: string, t: Token)
    requires IsSpelledWord(cs, w) && IsReserved(r, t) && IsCaseOf(cs, w, r)
    ensures Tokens(cs, w) == Some([t, Eof])
  {
    CaseIsUpper(cs, w, r);
    OneWord(cs, w);
  }

  /** Every other word is an identifier, spelled as it is. */
  lemma OtherWords(cs: Charset, w: string)
    requires IsSpelledWord(cs, w) && forall r, t :: IsReserved(r, t) ==> !IsCaseOf(cs, w, r)
    ensures Tokens(cs, w) == Some([Ident(w), Eof])
  {
    assert IsReserved("AND", AndWord) && IsReserved("OR", OrWord) && IsReserved("NOT", NotWord);
    assert IsReserved("LIKE", LikeWord) && IsReserved("IN", InWord) && IsReserved("EXISTS", ExistsWord);
    CaseIsUpper(cs, w, "AND");
    CaseIsUpper(cs, w, "OR");
    CaseIsUpper(cs, w, "NOT");
    CaseIsUpper(cs, w, "LIKE");
    CaseIsUpper(cs, w, "IN");
    CaseIsUpper(cs, w, "EXISTS");
    OneWord(cs, w);
  }

  /** In particular a reserved word in lower or in mixed case. */
  lemma MixedCaseIsReserved(cs: Charset, w: string, r: string, t: Token)
    requires IsReserved(r, t) && |w| == |r| && forall i :: 0 <= i < |w| ==> w[i] == r[i] || w[i] == r[i] + 32 as char
    ensures Tokens(cs, w) == Some([t, Eof])
  {
    forall i | 0 <= i < |w| ensures cs.letter(w[i]) && cs.upper(w[i]) == r[i] {
      assert 'A' <= r[i] <= 'Z';
    }
    ReservedInAnyCase(cs, w, r, t);
  }

  lemma LowerCaseIsReserved(cs: Charset)
    ensures Tokens(cs, "and") == Some([AndWord, Eof])
  {
    MixedCaseIsReserved(cs, "and", "AND", AndWord);
  }

  // ----- lexing in two parts -----

  /** The text does not end in a character that could go on in a word. */
  predicate Closed(cs: Charset, s: string)
  {
    s == [] || !IsWordChar(cs, s[|s| - 1])
  }

  lemma ClosedRest(cs: Charset, s: string, k: nat)
    requires Closed(cs, s) && k <= |s|
    ensures Closed(cs, s[k..])
  {
  }

  lemma {:induction false} SkipSpaceMore(cs: Charset, s: string, more: string)
    ensures SkipSpace(cs, s + more) == if SkipSpace(cs, s) == [] then SkipSpace(cs, more) else SkipSpace(cs, s) + more
  {
    if s == [] {
      assert s + more == more;
    } else if cs.space(s[0]) {
      assert (s + more)[1..] == s[1..] + more;
      SkipSpaceMore(cs, s[1..], more);
    }
  }

  lemma {:induction false} StringBodyMore(s: string, q: char, more: string)
    requires StringBody(s, q).Some?
    ensures StringBody(s + more, q) == Some((StringBody(s, q).value.0, StringBody(s, q).value.1 + more))
  {
    if s[0] == q {
      assert (s + more)[1..] == s[1..] + more;
    } else if s[0] == '\\' && |s| > 1 {
      assert (s + more)[2..] == s[2..] + more && (s + more)[1] == s[1];
      StringBodyMore(s[2..], q, more);
    } else {
      assert (s + more)[1..] == s[1..] + more;
      StringBodyMore(s[1..], q, more);
    }
  }

  lemma NextStringMore(cs: Charset, s: string, more: string)
    requires s != [] && NextToken(cs, s).Some? && (s[0] == '"' || s[0] == '\'')
    ensures NextToken(cs, s + more) == Some((NextToken(cs, s).value.0, NextToken(cs, s).value.1 + more))
  {
    assert (s + more)[1..] == s[1..] + more;
    StringBodyMore(s[1..], s[0], more);
  }

  lemma NextWordMore(cs: Charset, s: string, more: string)
    requires s != [] && IsWordStart(cs, s[0]) && Closed(cs, s)
    ensures NextToken(cs, s + more) == Some((NextToken(cs, s).value.0, NextToken(cs, s).value.1 + more))
  {
    var n := WordLen(cs, s);
    NextWordSound(cs, s);
    assert n < |s|;
    var w, rest := s[..n], s[n..] + more;
    assert s + more == w + rest;
    NextWord(cs, w, rest);
  }

  /** A token that is read is read in the same way when text follows a closed one. */
  lemma NextTokenMore(cs: Charset, s: string, more: string)
    requires s != [] && NextToken(cs, s).Some? && Closed(cs, s)
    ensures NextToken(cs, s + more) == Some((NextToken(cs, s).value.0, NextToken(cs, s).value.1 + more))
  {
    if s[0] == '"' || s[0] == '\'' {
      NextStringMore(cs, s, more);
    } else if IsWordStart(cs, s[0]) {
      NextWordMore(cs, s, more);
    } else {
      var k := if s[0] == '!' then 2 else 1;
      NextSignSound(cs, s);
      assert (s + more)[0] == s[0] && (k == 2 ==> (s + more)[1] == s[1]);
      assert (s + more)[k..] == s[k..] + more;
    }
  }

  /** The tokens of a text, before its end marker and those of what follows it. */
  function Continued(first: seq<Token>, more: Option<seq<Token>>): Option<seq<Token>>
    requires first != []
  {
    if more.None? then None else Some(first[..|first| - 1] + more.value)
  }

  lemma ContinuedCons(t: Token, first: seq<Token>, more: Option<seq<Token>>)
    requires first != []
    ensures Continued([t] + first, more) ==
            if Continued(first, more).None? then None else Some([t] + Continued(first, more).value)
  {
    if more.Some? { assert ([t] + first)[..|first|] + more.value == [t] + (first[..|first| - 1] + more.value); }
  }

  lemma SkippedIsClosed(cs: Charset, s: string)
    requires Closed(cs, s)
    ensures Closed(cs, SkipSpace(cs, s))
  {
    var g := SkipSpaceSound(cs, s);
    ClosedRest(cs, s, g);
  }

  /** A closed text that lexes is lexed before whatever follows it. */
  lemma {:induction false} TokensContinue(cs: Charset, s: string, more: string)
    requires Tokens(cs, s).Some? && Closed(cs, s)
    ensures Tokens(cs, s).value != [] && Tokens(cs, s + more) == Continued(Tokens(cs, s).value, Tokens(cs, more))
    decreases |s|
  {
    var r := SkipSpace(cs, s);
    SkipSpaceMore(cs, s, more);
    SkippedIsClosed(cs, s);
    if r == [] {
      SameAfterSpace(cs, s + more, more);
      assert [Eof][..0] == [];
      if Tokens(cs, more).Some? { assert [] + Tokens(cs, more).value == Tokens(cs, more).value; }
    } else {
      NextTokenMore(cs, r, more);
      var k := NextTokenSound(cs, r);
      var t, rest := NextToken(cs, r).value.0, NextToken(cs, r).value.1;
      ClosedRest(cs, r, k);
      TokensContinue(cs, rest, more);
      ContinuedCons(t, Tokens(cs, rest).value, Tokens(cs, more));
    }
  }

  lemma SameAfterSpace(cs: Charset, s: string, t: string)
    requires SkipSpace(cs, s) == SkipSpace(cs, t)
    ensures Tokens(cs, s) == Tokens(cs, t)
  {
  }

  // ----- respelling -----

  /** s and s' differ in one reserved word, standing where a token can start and a word must end. */
  ghost predicate Respelled(cs: Charset, s: string, s': string)
  {
    exists pre, w, w', post :: s == pre + (w + post) && s' == pre + (w' + post) && IsRespelling(cs, pre, w, w', post)
  }

  ghost predicate IsRespelling(cs: Charset, pre: string, w: string, w': string, post: string)
  {
    && Tokens(cs, pre).Some? && Closed(cs, pre) && (post != [] ==> !IsWordChar(cs, post[0]))
    && IsSpelledWord(cs, w) && IsSpelledWord(cs, w')
    && exists r, t :: IsReserved(r, t) && IsCaseOf(cs, w, r) && IsCaseOf(cs, w', r)
  }

  lemma WordThenRest(cs: Charset, w: string, post: string, r: string, t: Token)
    requires IsSpelledWord(cs, w) && IsReserved(r, t) && IsCaseOf(cs, w, r) && (post != [] ==> !IsWordChar(cs, post[0]))
    ensures Tokens(cs, w + post) == if Tokens(cs, post).None? then None else Some([t] + Tokens(cs, post).value)
  {
    CaseIsUpper(cs, w, r);
    NextWord(cs, w, post);
    assert (w + post)[0] == w[0];
  }

  lemma RespelledTokens(cs: Charset, pre: string, w: string, w': string, post: string)
    requires IsRespelling(cs, pre, w, w', post)
    ensures Tokens(cs, pre + (w + post)) == Tokens(cs, pre + (w' + post))
  {
    var r, t :| IsReserved(r, t) && IsCaseOf(cs, w, r) && IsCaseOf(cs, w', r);
    WordThenRest(cs, w, post, r, t);
    WordThenRest(cs, w', post, r, t);
    TokensContinue(cs, pre, w + post);
    TokensContinue(cs, pre, w' + post);
  }

  /** Writing reserved words in another case, any number of them, changes nothing. */
  lemma {:induction false} CaseDoesNotMatter(cs: Charset, texts: seq<string>)
    requires texts != [] && forall i :: 0 <= i < |texts| - 1 ==> Respelled(cs, texts[i], texts[i + 1])
    ensures Tokens(cs, texts[0]) == Tokens(cs, texts[|texts| - 1])
    ensures Parse(cs, texts[0]) == Parse(cs, texts[|texts| - 1])
  {
    if |texts| > 1 {
      var n := |texts| - 1;
      CaseDoesNotMatter(cs, texts[..n]);
      assert Respelled(cs, texts[n - 1], texts[n]);
      var pre, w, w', post :| texts[n - 1] == pre + (w + post) && texts[n] == pre + (w' + post) &&
                              IsRespelling(cs, pre, w, w', post);
      RespelledTokens(cs, pre, w, w', post);
    }
  }
}
