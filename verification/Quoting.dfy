/** Strings quoted by the %q verb, read back as Go reads a string literal (strconv.Unquote). */
module Quoting {
  import opened Wrappers
  import opened Charset
  import opened Filters

  function HexValue(c: char): Option<nat>
  {
    if '0' <= c <= '9' then Some((c - '0') as nat)
    else if 'a' <= c <= 'f' then Some((c - 'a') as nat + 10)
    else if 'A' <= c <= 'F' then Some((c - 'A') as nat + 10)
    else None
  }

  function FromHex(s: string): Option<nat>
  {
    if s == [] then Some(0)
    else
      var init, last := FromHex(s[..|s| - 1]), HexValue(s[|s| - 1]);
      if init.None? || last.None? then None else Some(16 * init.value + last.value)
  }

  /** A number that is a character. */
  function Scalar(n: nat): Option<char>
  {
    if n < 0xD800 || 0xE000 <= n < 0x11_0000 then Some(n as char) else None
  }

  /** The character a backslash and one letter stand for. */
  function Simple(c: char): Option<char>
  {
    match c
    case 'a' => Some(7 as char)
    case 'b' => Some(8 as char)
    case 't' => Some(9 as char)
    case 'n' => Some(10 as char)
    case 'v' => Some(11 as char)
    case 'f' => Some(12 as char)
    case 'r' => Some(13 as char)
    case '\\' => Some(c)
    case '"' => Some(c)
    case _ => None
  }

  /** How many hexadecimal digits follow the letter. */
  function Digits(c: char): nat
  {
    match c
    case 'x' => 2
    case 'u' => 4
    case 'U' => 8
    case _ => 0
  }

  function WithChar(c: Option<char>, rest: Option<string>): Option<string>
  {
    if c.None? || rest.None? then None else Some([c.value] + rest.value)
  }

  /** The value of a string literal, from what stands between its quotes. */
  function Unquote(s: string): Option<string>
  {
    if s == [] then Some("")
    else if s[0] == '"' then None
    else if s[0] != '\\' then WithChar(Some(s[0]), Unquote(s[1..]))
    else if |s| < 2 then None
    else if Simple(s[1]).Some? then WithChar(Simple(s[1]), Unquote(s[2..]))
    else
      var end := 2 + Digits(s[1]);
      if end == 2 || |s| < end || FromHex(s[2..end]).None? then None
      else WithChar(Scalar(FromHex(s[2..end]).value), Unquote(s[end..]))
  }

  function Power16(n: nat): nat
  {
    if n == 0 then 1 else 16 * Power16(n - 1)
  }

  lemma {:induction false} HexReadsBack(n: nat, width: nat)
    requires n < Power16(width)
    ensures |Hex(n, width)| == width && FromHex(Hex(n, width)) == Some(n)
  {
    if width > 0 {
      OneDigitLess(n, Power16(width - 1));
      HexReadsBack(n / 16, width - 1);
      LastDigit(Hex(n / 16, width - 1), n / 16, n % 16);
    }
  }

  lemma OneDigitLess(n: nat, p: nat)
    requires n < 16 * p
    ensures n / 16 < p && 16 * (n / 16) + n % 16 == n
  {
  }

  lemma LastDigit(init: string, high: nat, low: nat)
    requires FromHex(init) == Some(high) && low < 16
    ensures FromHex(init + [HexDigit(low)]) == Some(16 * high + low)
  {
    var s := init + [HexDigit(low)];
    assert s[..|s| - 1] == init;
    HexDigitReadsBack(low);
  }

  lemma HexDigitReadsBack(d: nat)
    requires d < 16
    ensures HexValue(HexDigit(d)) == Some(d)
  {
  }

  lemma NumberReadsBack(c: char, letter: char, rest: string)
    requires Simple(letter).None? && Digits(letter) > 0 && c as nat < Power16(Digits(letter))
    ensures Unquote(['\\', letter] + Hex(c as nat, Digits(letter)) + rest) == WithChar(Some(c), Unquote(rest))
  {
    var w, digits := Digits(letter), Hex(c as nat, Digits(letter));
    HexReadsBack(c as nat, w);
    var s := ['\\', letter] + digits + rest;
    assert s[2..2 + w] == digits && s[2 + w..] == rest;
  }

  lemma Powers()
    ensures Power16(2) == 256 && Power16(4) == 0x1_0000 && Power16(8) == 0x1_0000_0000
  {
    assert Power16(6) == 0x100_0000;
  }

  lemma SimpleTail(c: char)
    requires 7 <= c as nat <= 13
    ensures |EscapeTail(c)| == 1 && Simple(EscapeTail(c)[0]) == Some(c)
  {
  }

  lemma NumberTail(c: char) returns (letter: char)
    requires !(7 <= c as nat <= 13)
    ensures EscapeTail(c) == [letter] + Hex(c as nat, Digits(letter))
    ensures Simple(letter).None? && Digits(letter) > 0 && c as nat < Power16(Digits(letter))
  {
    var n := c as nat;
    Powers();
    letter := if n < 32 || n == 127 then 'x' else if n < 0x1_0000 then 'u' else 'U';
  }

  lemma Regroup(a: char, b: char, digits: string, rest: string)
    ensures [a] + ([b] + digits) + rest == [a, b] + digits + rest
  {
  }

  lemma EscapeReadsBack(c: char, rest: string)
    ensures Unquote(['\\'] + EscapeTail(c) + rest) == WithChar(Some(c), Unquote(rest))
  {
    if 7 <= c as nat <= 13 {
      SimpleTail(c);
      var s := ['\\'] + EscapeTail(c) + rest;
      assert s[1] == EscapeTail(c)[0] && s[2..] == rest;
    } else {
      var letter := NumberTail(c);
      NumberReadsBack(c, letter, rest);
      Regroup('\\', letter, Hex(c as nat, Digits(letter)), rest);
    }
  }

  lemma CharReadsBack(cs: Charset, c: char, rest: string)
    ensures Unquote(QuoteChar(cs, c) + rest) == WithChar(Some(c), Unquote(rest))
  {
    var s := QuoteChar(cs, c) + rest;
    if c == '"' || c == '\\' {
      assert s[2..] == rest;
    } else if cs.printable(c) {
      assert s[1..] == rest;
    } else {
      EscapeReadsBack(c, rest);
    }
  }

  /** What %q writes is a string literal of the value, for every value. */
  lemma {:induction false} QuoteReadsBack(cs: Charset, s: string)
    ensures Unquote(QuoteBody(cs, s)) == Some(s)
  {
    if s != [] {
      CharReadsBack(cs, s[0], QuoteBody(cs, s[1..]));
      QuoteReadsBack(cs, s[1..]);
      assert s == [s[0]] + s[1..];
    }
  }
}
