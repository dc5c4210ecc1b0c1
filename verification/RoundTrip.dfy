/** Printing a predicate tree and parsing the text again. */
module RoundTrip {
  import opened Wrappers
  import opened Charset
  import opened Lexing
  import opened Filters
  import opened Parsing
  import Glob

  // ----- the trees Parse returns -----

  ghost predicate WellFormed(cs: Charset, p: Predicate)
  {
    match p
    case Eq(k, _) => IsIdent(cs, k)
    case Ne(k, _) => IsIdent(cs, k)
    case Like(k, pattern, rx) => IsIdent(cs, k) && rx == Glob.Items(pattern)
    case In(k, _, _) => IsIdent(cs, k) && exists items :: items != [] && p == InNode(cs, k, items)
    case Exists(k) => IsIdent(cs, k)
    case And(l, r) => WellFormed(cs, l) && WellFormed(cs, r)
    case Or(l, r) => WellFormed(cs, l) && WellFormed(cs, r)
    case Not(q) => WellFormed(cs, q)
  }

  lemma {:induction false} TreeIsWellFormed(cs: Charset, d: Syntax)
    requires d.IsDerivation() && GoodIdents(cs, d.Yield())
    ensures WellFormed(cs, d.Tree(cs))
  {
    match d
    case EqSyntax(k, _) => assert Ident(k) in d.Yield();
    case NeSyntax(k, _) => assert Ident(k) in d.Yield();
    case LikeSyntax(k, _) => assert Ident(k) in d.Yield();
    case InSyntax(k, items) => assert Ident(k) in d.Yield();
    case ExistsSyntax(k) => assert Ident(k) in d.Yield();
    case Paren(e) => TreeIsWellFormed(cs, e);
    case NotSyntax(e) => TreeIsWellFormed(cs, e);
    case AndSyntax(l, r) => TreeIsWellFormed(cs, l); TreeIsWellFormed(cs, r);
    case OrSyntax(l, r) => TreeIsWellFormed(cs, l); TreeIsWellFormed(cs, r);
  }

  lemma ParsedIsWellFormed(cs: Charset, expr: string, p: Predicate)
    requires Parse(cs, expr) == Some(p)
    ensures WellFormed(cs, p)
  {
    var toks := Tokens(cs, expr).value;
    TokensSound(cs, expr);
    var ts := LexedTokensAreGood(cs, toks, expr);
    BeforeEofIs(ts, [Eof]);
    ParserIsCorrect(cs, toks, p);
    var d: Syntax :| d.IsDerivation() && d.Yield() == ts && d.Tree(cs) == p;
    TreeIsWellFormed(cs, d);
  }

  // ----- what becomes of a tree -----

  /** A quoted string as the lexer reads it back: only the backslashes of the escapes are dropped. */
  function RereadString(cs: Charset, s: string): string
  {
    if s == [] then [] else (if IsPlainChar(cs, s[0]) then [s[0]] else EscapeTail(s[0])) + RereadString(cs, s[1..])
  }

  function RereadAll(cs: Charset, items: seq<string>): seq<string>
  {
    seq(|items|, i requires 0 <= i < |items| => RereadString(cs, items[i]))
  }

  /** The list an IN node was built from. */
  ghost function ItemsOf(cs: Charset, p: Predicate): (items: seq<string>)
    requires p.In? && WellFormed(cs, p)
    ensures items != [] && p == InNode(cs, p.key, items)
  {
    var items :| items != [] && p == InNode(cs, p.key, items);
    items
  }

  /** The tree with every string value read back. */
  ghost function Reread(cs: Charset, p: Predicate): Predicate
    requires WellFormed(cs, p)
  {
    match p
    case Eq(k, v) => Eq(k, RereadString(cs, v))
    case Ne(k, v) => Ne(k, RereadString(cs, v))
    case Like(k, pattern, _) => LikeNode(k, RereadString(cs, pattern))
    case In(k, _, _) => InNode(cs, k, RereadAll(cs, ItemsOf(cs, p)))
    case Exists(k) => p
    case And(l, r) => And(Reread(cs, l), Reread(cs, r))
    case Or(l, r) => Or(Reread(cs, l), Reread(cs, r))
    case Not(q) => Not(Reread(cs, q))
  }

  /** How the printed text derives: AND and OR are always parenthesised. */
  ghost function SyntaxOf(cs: Charset, p: Predicate): (d: Syntax)
    requires WellFormed(cs, p)
    ensures d.IsDerivation() && d.Level() <= 1
  {
    match p
    case Eq(k, v) => EqSyntax(k, RereadString(cs, v))
    case Ne(k, v) => NeSyntax(k, RereadString(cs, v))
    case Like(k, pattern, _) => LikeSyntax(k, RereadString(cs, pattern))
    case In(k, _, _) => InSyntax(k, RereadAll(cs, ItemsOf(cs, p)))
    case Exists(k) => ExistsSyntax(k)
    case And(l, r) => Paren(AndSyntax(SyntaxOf(cs, l), SyntaxOf(cs, r)))
    case Or(l, r) => Paren(OrSyntax(SyntaxOf(cs, l), SyntaxOf(cs, r)))
    case Not(q) => NotSyntax(SyntaxOf(cs, q))
  }

  lemma LeafTree(cs: Charset, p: Predicate)
    requires WellFormed(cs, p) && !p.And? && !p.Or? && !p.Not?
    ensures SyntaxOf(cs, p).Tree(cs) == Reread(cs, p)
  {
  }

  lemma PairTree(cs: Charset, l: Syntax, r: Syntax)
    requires l.IsDerivation() && r.IsDerivation() && l.Level() <= 1 && r.Level() <= 1
    ensures Paren(AndSyntax(l, r)).IsDerivation() && Paren(AndSyntax(l, r)).Tree(cs) == And(l.Tree(cs), r.Tree(cs))
    ensures Paren(OrSyntax(l, r)).IsDerivation() && Paren(OrSyntax(l, r)).Tree(cs) == Or(l.Tree(cs), r.Tree(cs))
  {
    assert AndSyntax(l, r).IsDerivation() && OrSyntax(l, r).IsDerivation();
  }

  lemma {:induction false} SyntaxTree(cs: Charset, p: Predicate)
    requires WellFormed(cs, p)
    ensures SyntaxOf(cs, p).Tree(cs) == Reread(cs, p)
  {
    if p.And? || p.Or? {
      SyntaxTree(cs, p.left);
      SyntaxTree(cs, p.right);
      PairTree(cs, SyntaxOf(cs, p.left), SyntaxOf(cs, p.right));
    } else if p.Not? {
      SyntaxTree(cs, p.inner);
    } else {
      LeafTree(cs, p);
    }
  }

  // ----- the printed text is a layout of its tokens -----

  lemma HexChars(n: nat, width: nat)
    ensures forall c :: c in Hex(n, width) ==> IsEscapeLetter(c)
  {
  }

  lemma EscapeTailChars(c: char)
    ensures EscapeTail(c) != [] && '"' !in EscapeTail(c) && '\\' !in EscapeTail(c)
    ensures forall d :: d in EscapeTail(c) ==> IsEscapeLetter(d)
  {
    HexChars(c as int, 2);
    HexChars(c as int, 4);
    HexChars(c as int, 8);
  }

  /** Characters that need no escape stand for themselves. */
  lemma {:induction false} EscapesPlain(q: char, tail: string, val: string, body: string)
    requires q !in tail && '\\' !in tail && Escapes(q, val, body)
    ensures Escapes(q, tail + val, tail + body)
  {
    if tail == [] {
      assert tail + val == val && tail + body == body;
    } else {
      EscapesPlain(q, tail[1..], val, body);
      assert (tail + val)[1..] == tail[1..] + val && (tail + body)[1..] == tail[1..] + body;
    }
  }

  /** A backslash in front of a first character that would or would not have needed it. */
  lemma EscapesOne(q: char, tail: string, val: string, body: string)
    requires tail != [] && q !in tail[1..] && '\\' !in tail[1..] && Escapes(q, val, body)
    ensures Escapes(q, tail + val, ['\\'] + tail + body)
  {
    EscapesPlain(q, tail[1..], val, body);
    assert (tail + val)[1..] == tail[1..] + val;
    assert (['\\'] + tail + body)[2..] == tail[1..] + body;
  }

  lemma {:induction false} QuoteSpells(cs: Charset, s: string)
    ensures Escapes('"', RereadString(cs, s), QuoteBody(cs, s))
  {
    if s != [] {
      QuoteSpells(cs, s[1..]);
      var c, val, body := s[0], RereadString(cs, s[1..]), QuoteBody(cs, s[1..]);
      if c == '"' || c == '\\' {
        assert ['\\'] + [c] == ['\\', c];
        EscapesOne('"', [c], val, body);
      } else if cs.printable(c) {
        EscapesPlain('"', [c], val, body);
      } else {
        EscapeTailChars(c);
        var tail := EscapeTail(c);
        assert tail == [tail[0]] + tail[1..];
        EscapesOne('"', tail, val, body);
      }
    }
  }

  lemma {:induction false} QuoteIsLexeme(cs: Charset, s: string)
    ensures Lexeme(cs, Str(RereadString(cs, s)), Quote(cs, s))
  {
    QuoteSpells(cs, s);
    var l := Quote(cs, s);
    assert l[1..|l| - 1] == QuoteBody(cs, s);
  }

  lemma KeywordLexeme(cs: Charset, word: string)
    requires word == "AND" || word == "OR" || word == "NOT" || word == "LIKE" || word == "IN" || word == "EXISTS"
    ensures IsWordText(cs, word) && ToUpper(cs, word) == word
  {
    assert forall i :: 0 <= i < |word| ==> 'A' <= word[i] <= 'Z';
    assert ToUpper(cs, word) == word;
  }

  /** One lexeme of the printed text, with the white space printed in front of it. */
  datatype Piece = Piece(gap: string, tok: Token, text: string)

  ghost predicate GoodPiece(cs: Charset, piece: Piece)
  {
    (piece.gap == "" || piece.gap == " ") && Lexeme(cs, piece.tok, piece.text)
  }

  /** Only a word without a gap begins with a word character. */
  predicate Open(piece: Piece)
  {
    piece.gap == "" && piece.tok.IsWord()
  }

  ghost predicate GoodLayout(cs: Charset, pieces: seq<Piece>)
  {
    pieces != [] ==>
      && GoodPiece(cs, pieces[0]) && GoodLayout(cs, pieces[1..])
      && (pieces[0].tok.IsWord() && |pieces| > 1 ==> !Open(pieces[1]))
  }

  function Text(pieces: seq<Piece>): string
  {
    if pieces == [] then "" else pieces[0].gap + pieces[0].text + Text(pieces[1..])
  }

  function Toks(pieces: seq<Piece>): seq<Token>
  {
    if pieces == [] then [] else [pieces[0].tok] + Toks(pieces[1..])
  }

  lemma Assoc<T>(a: seq<T>, b: seq<T>, c: seq<T>)
    ensures a + b + c == a + (b + c)
  {
  }

  lemma {:induction false} TextConcat(a: seq<Piece>, b: seq<Piece>)
    ensures Text(a + b) == Text(a) + Text(b)
  {
    if a == [] {
      assert a + b == b;
    } else {
      TextConcat(a[1..], b);
      assert (a + b)[1..] == a[1..] + b;
      Assoc(a[0].gap + a[0].text, Text(a[1..]), Text(b));
    }
  }

  lemma {:induction false} ToksConcat(a: seq<Piece>, b: seq<Piece>)
    ensures Toks(a + b) == Toks(a) + Toks(b)
  {
    if a == [] {
      assert a + b == b;
    } else {
      ToksConcat(a[1..], b);
      assert (a + b)[1..] == a[1..] + b;
      Assoc([a[0].tok], Toks(a[1..]), Toks(b));
    }
  }

  lemma {:induction false} LayoutConcat(cs: Charset, a: seq<Piece>, b: seq<Piece>)
    requires GoodLayout(cs, a) && GoodLayout(cs, b) && (b != [] ==> !Open(b[0]))
    ensures GoodLayout(cs, a + b)
  {
    if a == [] {
      assert a + b == b;
    } else {
      LayoutConcat(cs, a[1..], b);
      assert (a + b)[1..] == a[1..] + b;
    }
  }

  /** The text of a piece that is not open does not extend a word in front of it. */
  lemma PieceStart(cs: Charset, piece: Piece, rest: string)
    requires GoodPiece(cs, piece) && !Open(piece)
    ensures |piece.gap + piece.text + rest| > 0 && !IsWordChar(cs, (piece.gap + piece.text + rest)[0])
  {
    var l := piece.text;
    if piece.gap == "" {
      assert IsPunctuation(l[0]);
      assert ("" + l + rest)[0] == l[0];
    } else {
      assert (" " + l + rest)[0] == ' ';
    }
  }

  /** Put one more lexeme in front of a layout. */
  lemma SpellsCons(cs: Charset, piece: Piece, ts: seq<Token>, rest: string)
    requires GoodPiece(cs, piece) && Spells(cs, ts, rest) && Separated(cs, piece.tok, rest)
    ensures Spells(cs, [piece.tok] + ts, piece.gap + piece.text + rest)
  {
    var s, g, m := piece.gap + piece.text + rest, |piece.gap|, |piece.gap| + |piece.text|;
    assert s[..g] == piece.gap && s[g..m] == piece.text && s[m..] == rest;
    NextTokenComplete(cs, piece.tok, piece.text, rest);
    assert Starts(cs, piece.tok, s, g, m);
    assert ([piece.tok] + ts)[1..] == ts;
  }

  lemma SeparatedPieces(cs: Charset, pieces: seq<Piece>)
    requires pieces != [] && GoodLayout(cs, pieces)
    ensures Separated(cs, pieces[0].tok, Text(pieces[1..]))
  {
    var rest := pieces[1..];
    if rest != [] && !Open(rest[0]) { PieceStart(cs, rest[0], Text(rest[1..])); }
  }

  lemma {:induction false} LayoutSpells(cs: Charset, pieces: seq<Piece>)
    requires GoodLayout(cs, pieces)
    ensures Spells(cs, Toks(pieces) + [Eof], Text(pieces))
  {
    if pieces != [] {
      var rest := pieces[1..];
      LayoutSpells(cs, rest);
      SeparatedPieces(cs, pieces);
      SpellsCons(cs, pieces[0], Toks(rest) + [Eof], Text(rest));
      assert Toks(pieces) + [Eof] == [pieces[0].tok] + (Toks(rest) + [Eof]);
    }
  }

  // ----- every printed node has a layout -----

  /** A layout that starts with the given gap, has the given tokens and the given text behind the gap. */
  ghost predicate Lays(cs: Charset, gap: string, pieces: seq<Piece>, ts: seq<Token>, text: string)
  {
    && pieces != [] && pieces[0].gap == gap && GoodLayout(cs, pieces)
    && Toks(pieces) == ts && Text(pieces) == gap + text
  }

  lemma LaysOne(cs: Charset, gap: string, t: Token, l: string) returns (pieces: seq<Piece>)
    requires GoodPiece(cs, Piece(gap, t, l))
    ensures Lays(cs, gap, pieces, [t], l) && pieces[0].tok == t
  {
    pieces := [Piece(gap, t, l)];
    assert gap + l + "" == gap + l;
  }

  lemma LaysCons(cs: Charset, gap: string, t: Token, l: string, gap': string, a: seq<Piece>, ts: seq<Token>,
                 text: string)
    returns (pieces: seq<Piece>)
    requires Lays(cs, gap', a, ts, text)
    requires GoodPiece(cs, Piece(gap, t, l)) && (t.IsWord() ==> gap' == " ")
    ensures Lays(cs, gap, pieces, [t] + ts, l + (gap' + text)) && pieces[0].tok == t
  {
    pieces := [Piece(gap, t, l)] + a;
    assert pieces[1..] == a && pieces[1] == a[0];
    Assoc(gap, l, gap' + text);
  }

  lemma LaysConcat(cs: Charset, gap: string, a: seq<Piece>, ts: seq<Token>, text: string,
                   gap': string, b: seq<Piece>, us: seq<Token>, more: string)
    returns (pieces: seq<Piece>)
    requires Lays(cs, gap, a, ts, text) && Lays(cs, gap', b, us, more) && !Open(b[0])
    ensures Lays(cs, gap, pieces, ts + us, text + (gap' + more)) && pieces[0] == a[0]
  {
    pieces := a + b;
    TextConcat(a, b);
    ToksConcat(a, b);
    LayoutConcat(cs, a, b);
    Assoc(gap, text, gap' + more);
  }

  /** key op "value" */
  lemma CompareLays(cs: Charset, gap: string, key: string, op: Token, opText: string, sep: string, v: string)
    returns (pieces: seq<Piece>)
    requires gap == "" || gap == " "
    requires sep == " " + opText + " " && IsIdent(cs, key) && Lexeme(cs, op, opText)
    ensures Lays(cs, gap, pieces, [Ident(key), op, Str(RereadString(cs, v))], key + sep + Quote(cs, v))
  {
    QuoteIsLexeme(cs, v);
    pieces := ValueLays(cs, gap, key, op, opText, RereadString(cs, v), Quote(cs, v));
  }

  lemma ValueLays(cs: Charset, gap: string, key: string, op: Token, opText: string, v: string, l: string)
    returns (pieces: seq<Piece>)
    requires gap == "" || gap == " "
    requires IsIdent(cs, key) && Lexeme(cs, op, opText) && Lexeme(cs, Str(v), l)
    ensures Lays(cs, gap, pieces, [Ident(key), op, Str(v)], key + (" " + opText + " ") + l)
  {
    pieces := OperandLays(cs, op, opText, v, l);
    pieces := LaysCons(cs, gap, Ident(key), key, " ", pieces, [op, Str(v)], opText + (" " + l));
    assert [Ident(key)] + [op, Str(v)] == [Ident(key), op, Str(v)];
    CompareText(key, opText, l);
  }

  /** op "value" */
  lemma OperandLays(cs: Charset, op: Token, opText: string, v: string, l: string) returns (pieces: seq<Piece>)
    requires Lexeme(cs, op, opText) && Lexeme(cs, Str(v), l)
    ensures Lays(cs, " ", pieces, [op, Str(v)], opText + (" " + l))
  {
    pieces := LaysOne(cs, " ", Str(v), l);
    pieces := LaysCons(cs, " ", op, opText, " ", pieces, [Str(v)], l);
    assert [op] + [Str(v)] == [op, Str(v)];
  }

  lemma CompareText(key: string, opText: string, l: string)
    ensures key + (" " + (opText + (" " + l))) == key + (" " + opText + " ") + l
  {
  }

  lemma {:induction false} ListLays(cs: Charset, gap: string, items: seq<string>) returns (pieces: seq<Piece>)
    requires gap == "" || gap == " "
    requires items != []
    ensures Lays(cs, gap, pieces, ListTokens(RereadAll(cs, items)), Join(QuoteAll(cs, items)))
    ensures !pieces[0].tok.IsWord()
    decreases |items|
  {
    var t, l := Str(RereadString(cs, items[0])), Quote(cs, items[0]);
    QuoteIsLexeme(cs, items[0]);
    if |items| == 1 {
      pieces := LaysOne(cs, gap, t, l);
    } else {
      pieces := ListLays(cs, " ", items[1..]);
      pieces := CommaLays(cs, gap, t, l, pieces, ListTokens(RereadAll(cs, items[1..])), Join(QuoteAll(cs, items[1..])));
      RereadTokens(cs, items);
      QuotedText(cs, items);
    }
  }

  lemma RereadTokens(cs: Charset, items: seq<string>)
    requires |items| > 1
    ensures ListTokens(RereadAll(cs, items)) ==
            [Str(RereadString(cs, items[0]))] + ([Comma] + ListTokens(RereadAll(cs, items[1..])))
  {
    var all, more := RereadAll(cs, items), RereadAll(cs, items[1..]);
    assert all == [RereadString(cs, items[0])] + more;
    ListTokensParts(all, RereadString(cs, items[0]), more);
  }

  lemma QuotedText(cs: Charset, items: seq<string>)
    requires |items| > 1
    ensures Join(QuoteAll(cs, items)) == Quote(cs, items[0]) + ", " + Join(QuoteAll(cs, items[1..]))
  {
    var all, more := QuoteAll(cs, items), QuoteAll(cs, items[1..]);
    assert all == [Quote(cs, items[0])] + more;
    JoinParts(all, Quote(cs, items[0]), more);
  }

  lemma ListTokensParts(all: seq<string>, first: string, more: seq<string>)
    requires all == [first] + more && more != []
    ensures ListTokens(all) == [Str(first)] + ([Comma] + ListTokens(more))
  {
    assert all[1..] == more;
    assert [Str(first), Comma] == [Str(first)] + [Comma];
    Assoc([Str(first)], [Comma], ListTokens(more));
  }

  lemma JoinParts(all: seq<string>, first: string, more: seq<string>)
    requires all == [first] + more && more != []
    ensures Join(all) == first + ", " + Join(more)
  {
    assert all[1..] == more;
  }

  lemma CommaLays(cs: Charset, gap: string, t: Token, l: string, a: seq<Piece>, ts: seq<Token>, text: string)
    returns (pieces: seq<Piece>)
    requires Lays(cs, " ", a, ts, text) && GoodPiece(cs, Piece(gap, t, l)) && !t.IsWord()
    ensures Lays(cs, gap, pieces, [t] + ([Comma] + ts), l + ", " + text) && pieces[0].tok == t
  {
    pieces := LaysCons(cs, "", Comma, ",", " ", a, ts, text);
    pieces := LaysCons(cs, gap, t, l, "", pieces, [Comma] + ts, "," + (" " + text));
    assert l + ("" + ("," + (" " + text))) == l + ", " + text;
  }

  /** ( text ) with a space in front */
  lemma ParenLays(cs: Charset, a: seq<Piece>, ts: seq<Token>, text: string) returns (pieces: seq<Piece>)
    requires Lays(cs, "", a, ts, text)
    ensures Lays(cs, " ", pieces, [LParen] + (ts + [RParen]), "(" + text + ")")
  {
    var close := LaysOne(cs, "", RParen, ")");
    pieces := LaysConcat(cs, "", a, ts, text, "", close, [RParen], ")");
    pieces := LaysCons(cs, " ", LParen, "(", "", pieces, ts + [RParen], text + ("" + ")"));
    assert "(" + ("" + (text + ("" + ")"))) == "(" + text + ")";
  }

  /** key IN (items) */
  lemma InLays(cs: Charset, gap: string, key: string, items: seq<string>) returns (pieces: seq<Piece>)
    requires gap == "" || gap == " "
    requires IsIdent(cs, key) && items != []
    ensures Lays(cs, gap, pieces, [Ident(key), InWord, LParen] + ListTokens(RereadAll(cs, items)) + [RParen],
                 key + " IN (" + Join(QuoteAll(cs, items)) + ")")
  {
    KeywordLexeme(cs, "IN");
    var ts, text := ListTokens(RereadAll(cs, items)), Join(QuoteAll(cs, items));
    var t1, x1 := [LParen] + (ts + [RParen]), "(" + text + ")";
    pieces := ListLays(cs, "", items);
    pieces := ParenLays(cs, pieces, ts, text);
    pieces := LaysCons(cs, " ", InWord, "IN", " ", pieces, t1, x1);
    pieces := LaysCons(cs, gap, Ident(key), key, " ", pieces, [InWord] + t1, "IN" + (" " + x1));
    InParts(key, ts, text);
  }

  lemma InParts(key: string, ts: seq<Token>, text: string)
    ensures [Ident(key)] + ([InWord] + ([LParen] + (ts + [RParen]))) == [Ident(key), InWord, LParen] + ts + [RParen]
    ensures key + (" " + ("IN" + (" " + ("(" + text + ")")))) == key + " IN (" + text + ")"
  {
  }

  /** (left op right) */
  lemma PairLays(cs: Charset, gap: string, l: seq<Piece>, lt: seq<Token>, lx: string, op: Token, opText: string,
                 sep: string, r: seq<Piece>, rt: seq<Token>, rx: string)
    returns (pieces: seq<Piece>)
    requires gap == "" || gap == " "
    requires sep == " " + opText + " "
    requires Lays(cs, "", l, lt, lx) && Lays(cs, " ", r, rt, rx) && Lexeme(cs, op, opText) && op.IsWord()
    ensures Lays(cs, gap, pieces, [LParen] + (lt + [op] + rt) + [RParen], "(" + lx + sep + rx + ")")
  {
    var close := LaysOne(cs, "", RParen, ")");
    pieces := LaysConcat(cs, " ", r, rt, rx, "", close, [RParen], ")");
    var t1, x1 := rt + [RParen], rx + ("" + ")");
    pieces := LaysCons(cs, " ", op, opText, " ", pieces, t1, x1);
    var t2, x2 := [op] + t1, opText + (" " + x1);
    pieces := LaysConcat(cs, "", l, lt, lx, " ", pieces, t2, x2);
    pieces := LaysCons(cs, gap, LParen, "(", "", pieces, lt + t2, lx + (" " + x2));
    PairParts(lt, lx, op, opText, rt, rx);
  }

  lemma PairParts(lt: seq<Token>, lx: string, op: Token, opText: string, rt: seq<Token>, rx: string)
    ensures [LParen] + (lt + ([op] + (rt + [RParen]))) == [LParen] + (lt + [op] + rt) + [RParen]
    ensures "(" + ("" + (lx + (" " + (opText + (" " + (rx + ("" + ")"))))))) ==
            "(" + lx + (" " + opText + " ") + rx + ")"
  {
  }

  lemma ExistsLays(cs: Charset, gap: string, key: string) returns (pieces: seq<Piece>)
    requires gap == "" || gap == " "
    requires IsIdent(cs, key)
    ensures Lays(cs, gap, pieces, [ExistsWord, Ident(key)], "EXISTS " + key)
  {
    KeywordLexeme(cs, "EXISTS");
    pieces := LaysOne(cs, " ", Ident(key), key);
    pieces := LaysCons(cs, gap, ExistsWord, "EXISTS", " ", pieces, [Ident(key)], key);
    assert [ExistsWord] + [Ident(key)] == [ExistsWord, Ident(key)];
    assert "EXISTS" + (" " + key) == "EXISTS " + key;
  }

  lemma LeafLays(cs: Charset, gap: string, p: Predicate) returns (pieces: seq<Piece>)
    requires gap == "" || gap == " "
    requires WellFormed(cs, p) && !p.And? && !p.Or? && !p.Not?
    ensures Lays(cs, gap, pieces, SyntaxOf(cs, p).Yield(), Print(cs, p))
  {
    match p
    case Eq(k, v) =>
      assert " = " == " " + "=" + " ";
      pieces := CompareLays(cs, gap, k, EqSign, "=", " = ", v);
    case Ne(k, v) =>
      assert " != " == " " + "!=" + " ";
      pieces := CompareLays(cs, gap, k, NeSign, "!=", " != ", v);
    case Like(k, v, _) =>
      assert " LIKE " == " " + "LIKE" + " ";
      KeywordLexeme(cs, "LIKE");
      pieces := CompareLays(cs, gap, k, LikeWord, "LIKE", " LIKE ", v);
    case In(k, _, _) =>
      pieces := InLays(cs, gap, k, ItemsOf(cs, p));
    case Exists(k) =>
      pieces := ExistsLays(cs, gap, k);
  }

  lemma NotLays(cs: Charset, gap: string, a: seq<Piece>, ts: seq<Token>, text: string) returns (pieces: seq<Piece>)
    requires gap == "" || gap == " "
    requires Lays(cs, " ", a, ts, text)
    ensures Lays(cs, gap, pieces, [NotWord] + ts, "NOT " + text)
  {
    KeywordLexeme(cs, "NOT");
    pieces := LaysCons(cs, gap, NotWord, "NOT", " ", a, ts, text);
    assert "NOT" + (" " + text) == "NOT " + text;
  }

  lemma {:induction false} AndLays(cs: Charset, gap: string, p: Predicate) returns (pieces: seq<Piece>)
    requires gap == "" || gap == " "
    requires p.And? && WellFormed(cs, p)
    ensures Lays(cs, gap, pieces, SyntaxOf(cs, p).Yield(), Print(cs, p))
    decreases p, 0
  {
    KeywordLexeme(cs, "AND");
    assert " AND " == " " + "AND" + " ";
    var l := PrintLays(cs, "", p.left);
    var r := PrintLays(cs, " ", p.right);
    pieces := PairLays(cs, gap, l, SyntaxOf(cs, p.left).Yield(), Print(cs, p.left), AndWord, "AND", " AND ",
                       r, SyntaxOf(cs, p.right).Yield(), Print(cs, p.right));
  }

  lemma {:induction false} OrLays(cs: Charset, gap: string, p: Predicate) returns (pieces: seq<Piece>)
    requires gap == "" || gap == " "
    requires p.Or? && WellFormed(cs, p)
    ensures Lays(cs, gap, pieces, SyntaxOf(cs, p).Yield(), Print(cs, p))
    decreases p, 0
  {
    KeywordLexeme(cs, "OR");
    assert " OR " == " " + "OR" + " ";
    var l := PrintLays(cs, "", p.left);
    var r := PrintLays(cs, " ", p.right);
    pieces := PairLays(cs, gap, l, SyntaxOf(cs, p.left).Yield(), Print(cs, p.left), OrWord, "OR", " OR ",
                       r, SyntaxOf(cs, p.right).Yield(), Print(cs, p.right));
  }

  /** Every printed tree is a layout of the tokens its derivation yields. */
  lemma {:induction false} PrintLays(cs: Charset, gap: string, p: Predicate) returns (pieces: seq<Piece>)
    requires gap == "" || gap == " "
    requires WellFormed(cs, p)
    ensures Lays(cs, gap, pieces, SyntaxOf(cs, p).Yield(), Print(cs, p))
    decreases p, 1
  {
    match p
    case And(_, _) => pieces := AndLays(cs, gap, p);
    case Or(_, _) => pieces := OrLays(cs, gap, p);
    case Not(q) =>
      pieces := PrintLays(cs, " ", q);
      pieces := NotLays(cs, gap, pieces, SyntaxOf(cs, q).Yield(), Print(cs, q));
    case _ => pieces := LeafLays(cs, gap, p);
  }

  // ----- the round trip -----

  /** What is laid out as the tokens of a derivation parses to its tree. */
  lemma LaidIsParsed(cs: Charset, pieces: seq<Piece>, d: Syntax, text: string)
    requires d.IsDerivation() && Lays(cs, "", pieces, d.Yield(), text)
    ensures Parse(cs, text) == Some(d.Tree(cs))
  {
    LayoutSpells(cs, pieces);
    assert "" + text == text;
    assert Derives(cs, d.Yield(), d.Tree(cs));
    ParseIsCorrect(cs, text, d.Tree(cs));
  }

  /** Printing a tree Parse can return and parsing the text gives the tree with its strings read back. */
  lemma PrintParse(cs: Charset, p: Predicate)
    requires WellFormed(cs, p)
    ensures Parse(cs, Print(cs, p)) == Some(Reread(cs, p))
  {
    var pieces := PrintLays(cs, "", p);
    LaidIsParsed(cs, pieces, SyntaxOf(cs, p), Print(cs, p));
    SyntaxTree(cs, p);
  }

  ghost predicate PlainString(cs: Charset, s: string)
  {
    forall c :: c in s ==> IsPlainChar(cs, c)
  }

  /** Every string value needs no escapes but quote and backslash. */
  ghost predicate Plain(cs: Charset, p: Predicate)
  {
    match p
    case Eq(_, v) => PlainString(cs, v)
    case Ne(_, v) => PlainString(cs, v)
    case Like(_, pattern, _) => PlainString(cs, pattern)
    case In(_, vals, _) => forall v :: v in vals ==> PlainString(cs, v)
    case Exists(_) => true
    case And(l, r) => Plain(cs, l) && Plain(cs, r)
    case Or(l, r) => Plain(cs, l) && Plain(cs, r)
    case Not(q) => Plain(cs, q)
  }

  lemma {:induction false} RereadIsPlain(cs: Charset, s: string)
    ensures PlainString(cs, RereadString(cs, s))
    ensures PlainString(cs, s) ==> RereadString(cs, s) == s
  {
    if s != [] {
      RereadIsPlain(cs, s[1..]);
      EscapeTailChars(s[0]);
      assert s == [s[0]] + s[1..];
    }
  }

  lemma {:induction false} RereadIsIdentityIff(cs: Charset, p: Predicate)
    requires WellFormed(cs, p)
    ensures Reread(cs, p) == p <==> Plain(cs, p)
  {
    match p
    case Eq(_, v) => RereadIsPlain(cs, v);
    case Ne(_, v) => RereadIsPlain(cs, v);
    case Like(_, pattern, _) => RereadIsPlain(cs, pattern);
    case In(k, vals, _) =>
      var items := ItemsOf(cs, p);
      var again := RereadAll(cs, items);
      forall i | 0 <= i < |items|
        ensures PlainString(cs, again[i]) && (PlainString(cs, items[i]) ==> again[i] == items[i])
      {
        RereadIsPlain(cs, items[i]);
      }
      assert Reread(cs, p).vals == set s | s in again;
      if Plain(cs, p) {
        assert forall i :: 0 <= i < |items| ==> items[i] in vals;
        assert again == items;
      }
    case Exists(_) =>
    case And(l, r) => RereadIsIdentityIff(cs, l); RereadIsIdentityIff(cs, r);
    case Or(l, r) => RereadIsIdentityIff(cs, l); RereadIsIdentityIff(cs, r);
    case Not(q) => RereadIsIdentityIff(cs, q);
  }

  /** The round trip returns the tree itself exactly when all its strings are plain. */
  lemma {:induction false} RoundTripIff(cs: Charset, p: Predicate)
    requires WellFormed(cs, p)
    ensures Parse(cs, Print(cs, p)) == Some(p) <==> Plain(cs, p)
  {
    PrintParse(cs, p);
    RereadIsIdentityIff(cs, p);
  }

  /** The same for the result of any successful Parse. */
  lemma ReparseOfParsed(cs: Charset, expr: string, p: Predicate)
    requires Parse(cs, expr) == Some(p)
    ensures Parse(cs, Print(cs, p)).Some?
    ensures Parse(cs, Print(cs, p)) == Some(p) <==> Plain(cs, p)
  {
    ParsedIsWellFormed(cs, expr, p);
    PrintParse(cs, p);
    RoundTripIff(cs, p);
  }

  /** A comparison with any literal of a value is accepted, with that value. */
  lemma LiteralIsParsed(cs: Charset, key: string, v: string, l: string)
    requires IsIdent(cs, key) && Lexeme(cs, Str(v), l)
    ensures Parse(cs, key + (" " + "=" + " ") + l) == Some(Eq(key, v))
  {
    var text := key + (" " + "=" + " ") + l;
    var pieces := ValueLays(cs, "", key, EqSign, "=", v, l);
    LaidIsParsed(cs, pieces, EqSyntax(key, v), text);
  }

  lemma TabLiteral(cs: Charset)
    ensures Lexeme(cs, Str("\t"), "\"\t\"")
  {
    assert "\"\t\""[1..2] == "\t" && "\t"[1..] == "";
    assert Escapes('"', "", "");
  }

  lemma TabIsParsed(cs: Charset, key: string)
    requires IsIdent(cs, key)
    ensures Parse(cs, key + (" " + "=" + " ") + "\"\t\"") == Some(Eq(key, "\t"))
  {
    TabLiteral(cs);
    LiteralIsParsed(cs, key, "\t", "\"\t\"");
  }

  lemma TabIsReread(cs: Charset)
    requires !cs.printable('\t')
    ensures RereadString(cs, "\t") == "t"
  {
    assert "\t"[1..] == "";
    assert RereadString(cs, "\t") == "t" + "" == "t";
  }

  /** The concrete failure: what was parsed with a tab is printed and reread with the letter t. */
  lemma {:induction false} TabIsLost(cs: Charset, key: string)
    requires IsIdent(cs, key) && !cs.printable('\t')
    ensures Parse(cs, key + (" " + "=" + " ") + "\"\t\"") == Some(Eq(key, "\t"))
    ensures Parse(cs, Print(cs, Eq(key, "\t"))) == Some(Eq(key, "t"))
  {
    TabIsParsed(cs, key);
    TabIsReread(cs);
    PrintParse(cs, Eq(key, "\t"));
  }
}
