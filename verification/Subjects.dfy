/** Parameterised NATS subjects: substitution and extraction of nats/nats_micro_service/nats_micro_service.go. */
module Subjects {
  import opened Wrappers

  // ----- the two regular expressions -----

  function IndexOf(s: string, c: char): (i: nat)
    ensures i <= |s| && (i < |s| ==> s[i] == c) && c !in s[..i]
  {
    if s == [] || s[0] == c then 0
    else
      assert forall k: nat :: k <= |s| - 1 ==> s[..k + 1] == [s[0]] + s[1..][..k];
      1 + IndexOf(s[1..], c)
  }

  /** The length of a match of \$\{[^}]+\} at the start of s, or 0. */
  function ParamLen(s: string): (n: nat)
    ensures n <= |s| && (n > 0 ==> n > 3)
  {
    if |s| > 3 && s[0] == '$' && s[1] == '{' then
      var j := IndexOf(s[2..], '}');
      if 0 < j < |s| - 2 then j + 3 else 0
    else 0
  }

  /** The names of all leftmost matches, in order. */
  function FindParams(s: string): seq<string>
  {
    if s == [] then []
    else
      var n := ParamLen(s);
      if n > 0 then [s[2..n - 1]] + FindParams(s[n..]) else FindParams(s[1..])
  }

  /** \w */
  predicate IsWordChar(c: char)
  {
    'a' <= c <= 'z' || 'A' <= c <= 'Z' || '0' <= c <= '9' || c == '_'
  }

  function WordLen(s: string): (n: nat)
    ensures n <= |s| && (forall i :: 0 <= i < n ==> IsWordChar(s[i])) && (n < |s| ==> !IsWordChar(s[n]))
  {
    if s != [] && IsWordChar(s[0]) then 1 + WordLen(s[1..]) else 0
  }

  /** parseTokens: all matches of \w+ or \$\{[^}]+\}. */
  function ParseTokens(s: string): seq<string>
  {
    if s == [] then []
    else if WordLen(s) > 0 then [s[..WordLen(s)]] + ParseTokens(s[WordLen(s)..])
    else if ParamLen(s) > 0 then [s[..ParamLen(s)]] + ParseTokens(s[ParamLen(s)..])
    else ParseTokens(s[1..])
  }

  /** strings.ReplaceAll for a non-empty pattern. */
  function ReplaceAll(s: string, pattern: string, value: string): string
    requires pattern != []
  {
    if s == [] then []
    else if pattern <= s then value + ReplaceAll(s[|pattern|..], pattern, value)
    else [s[0]] + ReplaceAll(s[1..], pattern, value)
  }

  // ----- substitution -----

  /** validateSubjectToken. */
  predicate ValidToken(value: string)
  {
    value != "" && forall i :: 0 <= i < |value| ==> value[i] !in ".*>" && value[i] > ' ' && value[i] as int != 0x7f
  }

  method ValidateSubjectToken(value: string) returns (ok: bool)
    ensures ok <==> ValidToken(value)
  {
    if value == "" { return false; }
    for i := 0 to |value|
      invariant forall j :: 0 <= j < i ==> value[j] !in ".*>" && value[j] > ' ' && value[j] as int != 0x7f
    {
      var r := value[i];
      if r == '.' || r == '*' || r == '>' || r <= ' ' || r as int == 0x7f { return false; }
    }
    return true;
  }

  function ParamText(name: string): string
  {
    "${" + name + "}"
  }

  /** The substitution loop over the names found. */
  function ReplaceEach(names: seq<string>, s: string, values: map<string, string>): Option<string>
  {
    if names == [] then Some(s)
    else
      var before := ReplaceEach(names[..|names| - 1], s, values);
      var name := names[|names| - 1];
      if before.None? || name !in values || !ValidToken(values[name]) then None
      else Some(ReplaceAll(before.value, ParamText(name), values[name]))
  }

  lemma {:induction false} ReplaceEachFails(names: seq<string>, k: nat, s: string, values: map<string, string>)
    requires k <= |names| && ReplaceEach(names[..k], s, values).None?
    ensures ReplaceEach(names, s, values).None?
  {
    if k < |names| {
      assert names[..|names| - 1][..k] == names[..k];
      ReplaceEachFails(names[..|names| - 1], k, s, values);
    } else {
      assert names[..k] == names;
    }
  }

  /** Substitution fails exactly on a missing or an unusable value. */
  lemma {:induction false} ReplaceSucceedsIff(names: seq<string>, s: string, values: map<string, string>)
    ensures ReplaceEach(names, s, values).Some? <==>
            forall i :: 0 <= i < |names| ==> names[i] in values && ValidToken(values[names[i]])
  {
    if names != [] {
      var before := names[..|names| - 1];
      ReplaceSucceedsIff(before, s, values);
      assert forall i :: 0 <= i < |before| ==> before[i] == names[i];
    }
  }

  /** Every character of a replaced text is one of the text or of the value. */
  lemma {:induction false} ReplacedFrom(s: string, pattern: string, value: string, c: char)
    requires pattern != [] && c in ReplaceAll(s, pattern, value)
    ensures c in s || c in value
    decreases |s|
  {
    var k := if pattern <= s then |pattern| else 1;
    if c in ReplaceAll(s[k..], pattern, value) {
      ReplacedFrom(s[k..], pattern, value, c);
    }
  }

  /** A character NATS gives a meaning to, white space, or a control character. */
  predicate IsReserved(c: char)
  {
    c == '*' || c == '>' || c as int <= 32 || c as int == 127
  }

  /** Substitution puts no wildcard, white space or control character in a subject. */
  lemma {:induction false} NothingReservedComesIn(names: seq<string>, s: string, values: map<string, string>, c: char)
    requires ReplaceEach(names, s, values).Some? && IsReserved(c) && c in ReplaceEach(names, s, values).value
    ensures c in s
  {
    if names != [] {
      var before, name := ReplaceEach(names[..|names| - 1], s, values).value, names[|names| - 1];
      ReplacedFrom(before, ParamText(name), values[name], c);
      assert c !in values[name];
      NothingReservedComesIn(names[..|names| - 1], s, values, c);
    }
  }

  /** Nor a separator. */
  lemma {:induction false} NoSeparatorComesIn(names: seq<string>, s: string, values: map<string, string>)
    requires ReplaceEach(names, s, values).Some?
    ensures multiset(ReplaceEach(names, s, values).value)['.'] <= multiset(s)['.']
  {
    if names != [] {
      var before, name := ReplaceEach(names[..|names| - 1], s, values).value, names[|names| - 1];
      ReplaceAddsNoDot(before, ParamText(name), values[name]);
      NoSeparatorComesIn(names[..|names| - 1], s, values);
    }
  }

  lemma {:induction false} ReplaceAddsNoDot(s: string, pattern: string, value: string)
    requires pattern != [] && '.' !in value
    ensures multiset(ReplaceAll(s, pattern, value))['.'] <= multiset(s)['.']
    decreases |s|
  {
    if s != [] {
      var k := if pattern <= s then |pattern| else 1;
      ReplaceAddsNoDot(s[k..], pattern, value);
      assert s == s[..k] + s[k..];
      assert k == 1 ==> s[..1] == [s[0]];
    }
  }

  /** Every parameter found is a non-empty name that stands in the text between "${" and "}". */
  lemma {:induction false} FoundIsThere(s: string, name: string) returns (k: nat)
    requires name in FindParams(s)
    ensures name != "" && '}' !in name && k <= |s| && "${" + name + "}" <= s[k..]
  {
    var n := ParamLen(s);
    if n > 0 && name == s[2..n - 1] {
      k := 0;
      assert s[..n] == "${" + name + "}" && s[0..] == s;
      assert s[2..][..n - 3] == name;
    } else {
      var m := if n > 0 then n else 1;
      k := FoundIsThere(s[m..], name);
      assert s[m..][k..] == s[k + m..];
      k := k + m;
    }
  }

  /** And the first one that stands there is found first. */
  lemma {:induction false} FirstIsFound(a: string, name: string, b: string)
    requires '$' !in a && name != "" && '}' !in name
    ensures FindParams(a + ("${" + name + "}" + b)) == [name] + FindParams(b)
  {
    var text := "${" + name + "}" + b;
    if a == [] {
      assert a + text == text;
      FoundAtFront(name, b);
    } else {
      assert (a + text)[1..] == a[1..] + text && (a + text)[0] == a[0];
      FirstIsFound(a[1..], name, b);
    }
  }

  lemma FoundAtFront(name: string, b: string)
    requires name != "" && '}' !in name
    ensures FindParams("${" + name + "}" + b) == [name] + FindParams(b)
  {
    var s := "${" + name + "}" + b;
    assert s[2..] == name + ("}" + b);
    FirstIndex(name, '}', "}" + b);
    assert ParamLen(s) == |name| + 3;
    assert s[2..|name| + 2] == name && s[|name| + 3..] == b;
  }

  lemma {:induction false} FirstIndex(a: string, c: char, rest: string)
    requires c !in a && rest != [] && rest[0] == c
    ensures IndexOf(a + rest, c) == |a|
  {
    if a == [] {
      assert a + rest == rest;
    } else {
      assert (a + rest)[1..] == a[1..] + rest;
      FirstIndex(a[1..], c, rest);
    }
  }

  /** ReplaceTokens, with the request's fields given as a map. */
  method ReplaceTokens(template: string, values: map<string, string>) returns (subject: Option<string>)
    ensures subject == ReplaceEach(FindParams(template), template, values)
  {
    var names := FindParams(template);
    var replaced := template;
    for i := 0 to |names|
      invariant ReplaceEach(names[..i], template, values) == Some(replaced)
    {
      assert names[..i + 1][..i] == names[..i];
      if names[i] !in values {
        ReplaceEachFails(names, i + 1, template, values);
        return None;
      }
      var ok := ValidateSubjectToken(values[names[i]]);
      if !ok {
        ReplaceEachFails(names, i + 1, template, values);
        return None;
      }
      replaced := ReplaceAll(replaced, ParamText(names[i]), values[names[i]]);
    }
    assert names[..|names|] == names;
    subject := Some(replaced);
  }

  // ----- the tokenizer of routes -----

  /** What tokenizing the rest of a route adds, with a brace depth and a token under way. */
  function TokenizeFrom(s: string, depth: int, token: string): seq<string>
  {
    if s == [] then (if token != "" then [token] else [])
    else if s[0] == '.' && depth == 0 then (if token != "" then [token] else []) + TokenizeFrom(s[1..], depth, "")
    else TokenizeFrom(s[1..], depth + Brace(s[0]), token + [s[0]])
  }

  function Brace(c: char): int
  {
    if c == '{' then 1 else if c == '}' then -1 else 0
  }

  function Tokenize(route: string): seq<string>
  {
    TokenizeFrom(route, 0, "")
  }

  /** tokenizeRouteWithNesting. */
  method TokenizeRouteWithNesting(route: string) returns (tokens: seq<string>)
    ensures tokens == Tokenize(route)
  {
    tokens := [];
    var current := "";
    var depth := 0;
    for i := 0 to |route|
      invariant Tokenize(route) == tokens + TokenizeFrom(route[i..], depth, current)
    {
      var r := route[i];
      assert route[i..][1..] == route[i + 1..] && route[i..][0] == r;
      if r == '.' && depth == 0 {
        if current != "" {
          tokens := tokens + [current];
          current := "";
        }
      } else if r == '{' {
        depth := depth + 1;
        current := current + [r];
      } else if r == '}' {
        depth := depth - 1;
        current := current + [r];
      } else {
        current := current + [r];
      }
    }
    if current != "" { tokens := tokens + [current]; }
  }

  /** The sum of the braces of a segment. */
  function Balance(s: string): int
  {
    if s == [] then 0 else Brace(s[0]) + Balance(s[1..])
  }

  function Join(segs: seq<string>): string
  {
    if segs == [] then "" else if |segs| == 1 then segs[0] else segs[0] + "." + Join(segs[1..])
  }

  ghost predicate PlainSegments(segs: seq<string>)
  {
    forall seg :: seg in segs ==> seg != "" && '.' !in seg
  }

  lemma {:induction false} TokenizeSegment(seg: string, rest: string, depth: int, token: string)
    requires '.' !in seg
    ensures TokenizeFrom(seg + rest, depth, token) == TokenizeFrom(rest, depth + Balance(seg), token + seg)
  {
    if seg == [] {
      assert seg + rest == rest && token + seg == token;
    } else {
      assert (seg + rest)[1..] == seg[1..] + rest;
      TokenizeSegment(seg[1..], rest, depth + Brace(seg[0]), token + [seg[0]]);
      assert token + [seg[0]] + seg[1..] == token + seg;
    }
  }

  /** Every segment but the last has as many opening as closing braces. */
  ghost predicate Balanced(segs: seq<string>)
  {
    forall i :: 0 <= i < |segs| - 1 ==> Balance(segs[i]) == 0
  }

  lemma {:induction false} TokenizeBalanced(segs: seq<string>)
    requires PlainSegments(segs) && Balanced(segs)
    ensures Tokenize(Join(segs)) == segs
  {
    if segs != [] {
      var seg := segs[0];
      assert seg in segs && "" + seg == seg;
      if |segs| == 1 {
        TokenizeSegment(seg, "", 0, "");
        assert seg + "" == seg;
      } else {
        var rest := "." + Join(segs[1..]);
        TokenizeSegment(seg, rest, 0, "");
        assert rest[1..] == Join(segs[1..]);
        assert Join(segs) == seg + rest;
        TokenizeBalanced(segs[1..]);
      }
    }
  }

  /** The first segment consumed, with what follows it. */
  lemma FirstSegment(segs: seq<string>, depth: int, token: string)
    requires PlainSegments(segs) && |segs| > 1
    ensures var seg, more := segs[0], Join(segs[1..]);
            TokenizeFrom(Join(segs), depth, token) ==
            if depth + Balance(seg) == 0 then [token + seg] + TokenizeFrom(more, 0, "")
            else TokenizeFrom(more, depth + Balance(seg), token + seg + ".")
  {
    var seg, rest := segs[0], "." + Join(segs[1..]);
    assert seg in segs && Join(segs) == seg + rest && rest[1..] == Join(segs[1..]);
    TokenizeSegment(seg, rest, depth, token);
  }

  lemma {:induction false} AtMostOneEach(segs: seq<string>, depth: int, token: string)
    requires PlainSegments(segs) && segs != []
    ensures |TokenizeFrom(Join(segs), depth, token)| <= |segs|
  {
    if |segs| == 1 {
      assert segs[0] in segs && segs[0] + "" == segs[0];
      TokenizeSegment(segs[0], "", depth, token);
    } else {
      FirstSegment(segs, depth, token);
      var bal := depth + Balance(segs[0]);
      assert forall seg :: seg in segs[1..] ==> seg in segs;
      AtMostOneEach(segs[1..], bal, if bal == 0 then "" else token + segs[0] + ".");
    }
  }

  /** A separator behind an unbalanced segment does not separate. */
  lemma {:induction false} UnbalancedIsShort(segs: seq<string>)
    requires PlainSegments(segs) && !Balanced(segs)
    ensures |Tokenize(Join(segs))| < |segs|
  {
    FirstSegment(segs, 0, "");
    var bal := Balance(segs[0]);
    assert forall seg :: seg in segs[1..] ==> seg in segs;
    if bal == 0 {
      assert forall i :: 0 < i < |segs| ==> segs[i] == segs[1..][i - 1];
      UnbalancedIsShort(segs[1..]);
    } else {
      AtMostOneEach(segs[1..], bal, "" + segs[0] + ".");
    }
  }

  /** Tokenizing gives the segments back exactly when every segment but the last is balanced. */
  lemma TokenizeJoinIff(segs: seq<string>)
    requires PlainSegments(segs)
    ensures Tokenize(Join(segs)) == segs <==> Balanced(segs)
  {
    if Balanced(segs) { TokenizeBalanced(segs); } else { UnbalancedIsShort(segs); }
  }

  /** The concrete failure: one open brace and the dot behind it no longer separates. */
  lemma OpenBraceSwallows()
    ensures |Tokenize("{" + "." + "a")| == 1 && Tokenize("{" + "." + "a") != ["{", "a"]
  {
    var segs := ["{", "a"];
    assert segs[1..] == ["a"] && Join(["a"]) == "a" && "{"[1..] == "";
    assert Balance("{") == 1 + Balance("");
    FirstSegment(segs, 0, "");
    AtMostOneEach(["a"], 1, "" + "{" + ".");
    TokenizeSegment("a", "", 1, "" + "{" + ".");
    assert "a" + "" == "a";
  }

  // ----- extraction -----

  predicate IsParameterToken(token: string)
  {
    "${" <= token && |token| >= 1 && token[|token| - 1] == '}'
  }

  /** The matching loop of ExtractRouteParams over the first n tokens. */
  function MatchTokens(tokens: seq<string>, route: seq<string>, n: nat): Option<map<string, string>>
    requires n <= |tokens| == |route|
  {
    if n == 0 then Some(map[])
    else
      var before := MatchTokens(tokens, route, n - 1);
      var token := tokens[n - 1];
      if before.None? then None
      else if !IsParameterToken(token) then (if token != route[n - 1] then None else before)
      else Some(before.value[token[2..|token| - 1] := route[n - 1]])
  }

  function Extract(route: string, template: string): Option<map<string, string>>
  {
    var tokens, segs := ParseTokens(template), Tokenize(route);
    if |segs| != |tokens| then None else MatchTokens(tokens, segs, |tokens|)
  }

  lemma {:induction false} MatchFails(tokens: seq<string>, route: seq<string>, k: nat, n: nat)
    requires k <= n <= |tokens| == |route| && MatchTokens(tokens, route, k).None?
    ensures MatchTokens(tokens, route, n).None?
  {
    if k < n { MatchFails(tokens, route, k, n - 1); }
  }

  method ExtractRouteParams(route: string, template: string) returns (params: Option<map<string, string>>)
    ensures params == Extract(route, template)
  {
    var tokens := ParseTokens(template);
    var segs := TokenizeRouteWithNesting(route);
    if |segs| != |tokens| { return None; }
    var found := map[];
    for i := 0 to |tokens|
      invariant MatchTokens(tokens, segs, i) == Some(found)
    {
      if !IsParameterToken(tokens[i]) {
        if tokens[i] != segs[i] {
          MatchFails(tokens, segs, i + 1, |tokens|);
          return None;
        }
      } else {
        found := found[tokens[i][2..|tokens[i]| - 1] := segs[i]];
      }
    }
    params := Some(found);
  }

  /** The last segment matched against a parameter, counting from the front. */
  function LastSegment(tokens: seq<string>, route: seq<string>, n: nat, name: string): Option<string>
    requires n <= |tokens| == |route|
  {
    if n == 0 then None
    else if tokens[n - 1] == ParamText(name) then Some(route[n - 1])
    else LastSegment(tokens, route, n - 1, name)
  }

  lemma ParameterIs(token: string, name: string)
    ensures IsParameterToken(token) && token[2..|token| - 1] == name <==> token == ParamText(name)
  {
    if IsParameterToken(token) {
      assert token == token[..2] + token[2..|token| - 1] + token[|token| - 1..];
    }
  }

  /**
   Matching succeeds exactly when every other token is its segment, and then maps
   each parameter to its last segment.
   */
  lemma {:induction false} MatchIff(tokens: seq<string>, route: seq<string>, n: nat)
    requires n <= |tokens| == |route|
    ensures MatchTokens(tokens, route, n).Some? <==>
            forall i :: 0 <= i < n && !IsParameterToken(tokens[i]) ==> tokens[i] == route[i]
    ensures var m := MatchTokens(tokens, route, n);
            m.Some? ==> forall name ::
              LastSegment(tokens, route, n, name) == if name in m.value then Some(m.value[name]) else None
  {
    if n > 0 {
      MatchIff(tokens, route, n - 1);
      forall name { ParameterIs(tokens[n - 1], name); }
    }
  }

  /**
   Extraction succeeds exactly when the segments are as many as the tokens and
   agree with the words; a repeated parameter keeps its last segment.
   */
  lemma ExtractIff(route: string, template: string)
    ensures var tokens, segs := ParseTokens(template), Tokenize(route);
            Extract(route, template).Some? <==>
            |segs| == |tokens| && forall i :: 0 <= i < |tokens| && !IsParameterToken(tokens[i]) ==> tokens[i] == segs[i]
    ensures var tokens, segs, m := ParseTokens(template), Tokenize(route), Extract(route, template);
            m.Some? ==> forall name ::
              LastSegment(tokens, segs, |tokens|, name) == if name in m.value then Some(m.value[name]) else None
  {
    var tokens, segs := ParseTokens(template), Tokenize(route);
    if |segs| == |tokens| { MatchIff(tokens, segs, |tokens|); }
  }

  /** So two routes that differ in an earlier segment of a repeated parameter are not told apart. */
  lemma RepeatedTokens(name: string, x: string, y: string)
    ensures MatchTokens([ParamText(name), ParamText(name)], [x, y], 2) == Some(map[name := y])
  {
    ParameterIs(ParamText(name), name);
    var tokens, route := [ParamText(name), ParamText(name)], [x, y];
    assert MatchTokens(tokens, route, 0) == Some(map[]);
    assert MatchTokens(tokens, route, 1) == Some(map[name := x]);
    assert map[name := x][name := y] == map[name := y];
  }
}
