/** Strings in JSON text (section 7 of RFC 8259), as Go's encoder writes and its decoder reads them. */
module JsonStrings {
  import opened Wrappers

  // ---------- Writing ----------

  function HexDigit(n: nat): (c: char)
    requires n < 16
    ensures HexValue(c) == n
  {
    if n < 10 then '0' + n as char else 'a' + (n - 10) as char
  }

  /** The value of a hexadecimal digit; -1 for other characters. */
  function HexValue(c: char): (v: int)
    ensures -1 <= v < 16
  {
    if '0' <= c <= '9' then (c - '0') as int
    else if 'a' <= c <= 'f' then (c - 'a') as int + 10
    else if 'A' <= c <= 'F' then (c - 'A') as int + 10
    else -1
  }

  function Hex4(n: nat): (h: string)
    requires n < 0x1_0000
    ensures |h| == 4
  {
    [HexDigit(n / 0x1000), HexDigit(n / 0x100 % 16), HexDigit(n / 16 % 16), HexDigit(n % 16)]
  }

  /** The letter of a two-character escape. */
  function ShortEscape(c: char): Option<char> {
    if c == '\"' then Some('\"')
    else if c == '\\' then Some('\\')
    else if c == 8 as char then Some('b')
    else if c == 12 as char then Some('f')
    else if c == '\n' then Some('n')
    else if c == '\r' then Some('r')
    else if c == '\t' then Some('t')
    else None
  }

  predicate NeedsHex(c: char) {
    c < ' ' || c == '<' || c == '>' || c == '&' || c == 0x2028 as char || c == 0x2029 as char
  }

  function EscapeChar(c: char): string {
    if ShortEscape(c).Some? then ['\\', ShortEscape(c).value]
    else if NeedsHex(c) then ['\\', 'u'] + Hex4(c as int)
    else [c]
  }

  function EscapeString(s: string): string {
    if s == "" then "" else EscapeChar(s[0]) + EscapeString(s[1..])
  }

  /** Go's short escapes. */
  lemma ShortEscapesOfGo()
    ensures EscapeChar('\"') == ['\\', '\"'] && EscapeChar('\\') == ['\\', '\\']
    ensures EscapeChar('\n') == ['\\', 'n'] && EscapeChar('\r') == ['\\', 'r'] && EscapeChar('\t') == ['\\', 't']
    ensures EscapeChar(8 as char) == ['\\', 'b'] && EscapeChar(12 as char) == ['\\', 'f']
  {
  }

  /** The escapes of six characters, for what could end a script. */
  lemma ScriptEscapesOfGo()
    ensures EscapeChar('&') == ['\\', 'u', '0', '0', '2', '6'] && EscapeChar('<') == ['\\', 'u', '0', '0', '3', 'c']
    ensures EscapeChar('>') == ['\\', 'u', '0', '0', '3', 'e']
  {
  }

  /** The same for other controls, such as the one before the space. */
  lemma ControlEscapeOfGo()
    ensures EscapeChar(31 as char) == ['\\', 'u', '0', '0', '1', 'f']
  {
  }

  /** And for what could end a line. */
  lemma LineEscapesOfGo()
    ensures EscapeChar(0x2028 as char) == ['\\', 'u', '2', '0', '2', '8']
    ensures EscapeChar(0x2029 as char) == ['\\', 'u', '2', '0', '2', '9']
  {
  }

  /** All other characters are written as they are. */
  lemma NoOtherEscapes(c: char)
    requires c >= ' ' && c !in {'\"', '\\', '&', '<', '>', 0x2028 as char, 0x2029 as char}
    ensures EscapeChar(c) == [c]
  {
  }

  function Hex4Value(h: string): int
    requires |h| == 4
  {
    ((HexValue(h[0]) * 16 + HexValue(h[1])) * 16 + HexValue(h[2])) * 16 + HexValue(h[3])
  }

  lemma Hex4RoundTrip(n: nat)
    requires n < 0x1_0000
    ensures Hex4Value(Hex4(n)) == n
    ensures forall i | 0 <= i < 4 :: HexValue(Hex4(n)[i]) >= 0
  {
    var m := n / 16;
    var l := m / 16;
    assert n / 0x100 == l && n / 0x1000 == l / 16;
    assert n == m * 16 + n % 16 && m == l * 16 + m % 16 && l == l / 16 * 16 + l % 16;
  }

  // ---------- Reading ----------

  /** The letter after a backslash, read back. */
  function ShortValue(c: char): Option<char> {
    if c == '\"' || c == '\\' || c == '/' then Some(c)
    else if c == 'b' then Some(8 as char)
    else if c == 'f' then Some(12 as char)
    else if c == 'n' then Some('\n')
    else if c == 'r' then Some('\r')
    else if c == 't' then Some('\t')
    else None
  }

  predicate IsHexEscape(t: string) {
    |t| >= 6 && t[0] == '\\' && t[1] == 'u' && forall i | 2 <= i < 6 :: HexValue(t[i]) >= 0
  }

  function HexEscapeValue(t: string): (n: nat)
    requires IsHexEscape(t)
    ensures n < 0x1_0000
  {
    assert HexValue(t[2]) >= 0 && HexValue(t[3]) >= 0 && HexValue(t[4]) >= 0 && HexValue(t[5]) >= 0;
    Hex4Value(t[2..6])
  }

  /** The first character of the text, as it is read, and how much of the text it takes; none if it is malformed. */
  function ReadChar(t: string): (r: Option<(char, nat)>)
    requires t != ""
    ensures r.Some? ==> 0 < r.value.1 <= |t|
  {
    if t[0] != '\\' then if t[0] < ' ' then None else Some((t[0], 1))
    else if |t| >= 2 && ShortValue(t[1]).Some? then Some((ShortValue(t[1]).value, 2))
    else if !IsHexEscape(t) then None
    else
      var high := HexEscapeValue(t);
      if !(0xd800 <= high < 0xe000) then Some((high as char, 6))
      else if high < 0xdc00 && IsHexEscape(t[6..]) && 0xdc00 <= HexEscapeValue(t[6..]) < 0xe000 then
        Some(((0x1_0000 + (high - 0xd800) * 0x400 + (HexEscapeValue(t[6..]) - 0xdc00)) as char, 12))
      else Some((0xfffd as char, 6))
  }

  /** A string up to its closing quote, and what comes after; none if it is malformed. */
  function ReadString(t: string): (r: Option<(string, string)>)
    ensures r.Some? ==> |r.value.1| < |t|
    decreases |t|
  {
    if t == "" then None
    else if t[0] == '\"' then Some(("", t[1..]))
    else match ReadChar(t)
      case None => None
      case Some((c, n)) =>
        match ReadString(t[n..])
        case None => None
        case Some((s, rest)) => Some(([c] + s, rest))
  }

  lemma HexEscapeOf(n: nat, rest: string)
    requires n < 0x1_0000
    ensures var t := ['\\', 'u'] + Hex4(n) + rest; IsHexEscape(t) && HexEscapeValue(t) == n && t[6..] == rest
  {
    var h := Hex4(n);
    var t := ['\\', 'u'] + h + rest;
    Hex4RoundTrip(n);
    assert t[2..6] == h && t[2] == h[0] && t[3] == h[1] && t[4] == h[2] && t[5] == h[3];
  }

  /** What is written for a character is read back as that character. */
  lemma ReadEscaped(c: char, rest: string)
    ensures ReadChar(EscapeChar(c) + rest) == Some((c, |EscapeChar(c)|)) && EscapeChar(c)[0] != '\"'
    ensures (EscapeChar(c) + rest)[|EscapeChar(c)|..] == rest
  {
    if ShortEscape(c) == None && NeedsHex(c) {
      HexEscapeOf(c as int, rest);
    }
  }

  // ---------- What other writers may have escaped ----------

  /** Hexadecimal digits are read in either case. */
  lemma HexDigitsRead(i: nat)
    requires i < 16
    ensures HexValue("0123456789abcdef"[i]) == i && HexValue("0123456789ABCDEF"[i]) == i
  {
  }

  lemma NoOtherDigits(c: char)
    requires c !in "0123456789abcdefABCDEF"
    ensures HexValue(c) == -1
  {
    assert forall i: nat | i < 16 :: c != "0123456789abcdef"[i] && c != "0123456789ABCDEF"[i];
  }

  /** The short escapes that are read. */
  lemma ReadShort(rest: string)
    ensures forall c | c == '\"' || c == '\\' || c == '/' :: ReadChar(['\\', c] + rest) == Some((c, 2))
    ensures ReadChar(['\\', 'b'] + rest) == Some((8 as char, 2)) && ReadChar(['\\', 'f'] + rest) == Some((12 as char, 2))
    ensures ReadChar(['\\', 'n'] + rest) == Some(('\n', 2)) && ReadChar(['\\', 'r'] + rest) == Some(('\r', 2))
    ensures ReadChar(['\\', 't'] + rest) == Some(('\t', 2))
  {
  }

  /** No other escape is read, nor a control character. */
  lemma ReadNothing(c: char, rest: string)
    ensures c !in {'\"', '\\', '/', 'b', 'f', 'n', 'r', 't', 'u'} ==> ReadChar(['\\', c] + rest) == None
    ensures c < ' ' ==> ReadChar([c] + rest) == None
  {
  }

  /** An escape of four characters is read only if these are hexadecimal digits. */
  lemma ReadBadHex(h: string, rest: string, i: nat)
    requires |h| == 4 && i < 4 && h[i] !in "0123456789abcdefABCDEF"
    ensures ReadChar(['\\', 'u'] + h + rest) == None
  {
    NoOtherDigits(h[i]);
    assert (['\\', 'u'] + h + rest)[i + 2] == h[i];
  }

  /** Two escapes may spell one character from U+10000 on. */
  lemma ReadSurrogates(high: nat, low: nat, rest: string)
    requires high < 0x400 && low < 0x400
    ensures ReadChar(['\\', 'u'] + Hex4(0xd800 + high) + (['\\', 'u'] + Hex4(0xdc00 + low) + rest))
         == Some(((0x1_0000 + high * 0x400 + low) as char, 12))
  {
    var second := ['\\', 'u'] + Hex4(0xdc00 + low) + rest;
    HexEscapeOf(0xdc00 + low, rest);
    HexEscapeOf(0xd800 + high, second);
    ReadPair(['\\', 'u'] + Hex4(0xd800 + high) + second, high, low);
  }

  lemma ReadPair(t: string, high: nat, low: nat)
    requires high < 0x400 && low < 0x400 && t != ""
    requires IsHexEscape(t) && HexEscapeValue(t) == 0xd800 + high
    requires IsHexEscape(t[6..]) && HexEscapeValue(t[6..]) == 0xdc00 + low
    ensures ReadChar(t) == Some(((0x1_0000 + high * 0x400 + low) as char, 12))
  {
  }

  /** A half without the other is read as U+FFFD. */
  lemma ReadHalf(t: string)
    requires IsHexEscape(t) && 0xd800 <= HexEscapeValue(t) < 0xe000
    requires HexEscapeValue(t) < 0xdc00 ==> !(IsHexEscape(t[6..]) && 0xdc00 <= HexEscapeValue(t[6..]) < 0xe000)
    ensures ReadChar(t) == Some((0xfffd as char, 6))
  {
  }

  // ---------- Writing ampersands as they are ----------

  /** The six characters of an escaped ampersand. */
  const AMPERSAND := ['\\', 'u', '0', '0', '2', '6']

  /** `strings.ReplaceAll` of escaped ampersands. */
  function Unescape(t: string): string {
    if t == "" then ""
    else if AMPERSAND <= t then "&" + Unescape(t[6..])
    else [t[0]] + Unescape(t[1..])
  }

  /** The string has a backslash directly before `u0026`. */
  predicate IsBroken(s: string) {
    s != "" && (AMPERSAND <= s || IsBroken(s[1..]))
  }

  lemma {:induction false} BrokenIffOccurs(s: string)
    ensures IsBroken(s) <==> exists i: nat :: i <= |s| && AMPERSAND <= s[i..]
  {
    if s == "" {
      assert forall i: nat :: i <= |s| ==> s[i..] == "";
    } else {
      BrokenIffOccurs(s[1..]);
      if i: nat :| i <= |s[1..]| && AMPERSAND <= s[1..][i..] {
        assert s[1..][i..] == s[i + 1..];
      }
      if i: nat :| i <= |s| && AMPERSAND <= s[i..] {
        if i > 0 {
          assert s[i..] == s[1..][i - 1..];
        } else {
          assert s[0..] == s;
        }
      }
      if AMPERSAND <= s {
        assert s[0..] == s;
      }
    }
  }

  /** What becomes of a string: an ampersand stays, and a backslash before `u0026` loses its own escape. */
  function Written(s: string): string {
    if s == "" then ""
    else if s[0] == '&' then "&" + Written(s[1..])
    else if AMPERSAND <= s then ['\\', '&'] + Written(s[6..])
    else EscapeChar(s[0]) + Written(s[1..])
  }

  /** A character that is written as it is, and is no quote. */
  predicate IsPlain(c: char) {
    EscapeChar(c) == [c] && c != '\"' && c != '\\'
  }

  lemma {:induction false} PlainPrefix(p: string, s: string, rest: string)
    requires AllPlain(p) && rest != "" && rest[0] == '\"'
    ensures p <= EscapeString(s) + rest <==> p <= s
  {
    if s == "" {
      assert EscapeString(s) + rest == rest;
    } else if p != "" {
      EscapeSplit(s, rest);
      if s[0] == p[0] {
        PlainPrefix(p[1..], s[1..], rest);
        PrefixCons(p, s[0], EscapeString(s[1..]) + rest);
        PrefixCons(p, s[0], s[1..]);
        assert s == [s[0]] + s[1..];
      } else {
        EscapesDiffer(p[0], s[0]);
      }
    }
  }

  lemma PrefixCons(p: string, c: char, t: string)
    requires p != ""
    ensures p <= [c] + t <==> p[0] == c && p[1..] <= t
  {
    if p[0] == c && p[1..] <= t {
      assert p == [p[0]] + p[1..];
    }
  }

  lemma EscapesDiffer(c: char, d: char)
    requires IsPlain(c) && c != d
    ensures EscapeChar(d) != "" && EscapeChar(d)[0] != c
  {
  }

  lemma {:induction false} UnescapePlain(p: string, t: string)
    requires '\\' !in p
    ensures Unescape(p + t) == p + Unescape(t)
  {
    if p == "" {
      assert p + t == t;
    } else {
      UnescapePlain(p[1..], t);
      assert (p + t)[1..] == p[1..] + t && p[0] in p;
    }
  }

  /** A character other than an ampersand and a backslash is left as it was written. */
  lemma UnescapeOther(c: char, t: string)
    requires c != '&' && c != '\\'
    ensures Unescape(EscapeChar(c) + t) == EscapeChar(c) + Unescape(t)
  {
    var e := EscapeChar(c);
    var all := e + t;
    if e[0] == '\\' {
      assert all == ['\\'] + (e[1..] + t) && all[1..] == e[1..] + t;
      assert !(AMPERSAND <= all) by {
        if ShortEscape(c) == None {
          NotAmpersand(c);
          assert all[..6] == e;
        } else {
          assert all[1] != 'u';
        }
      }
      HexHasNoBackslash(c);
      UnescapePlain(e[1..], t);
      assert e == ['\\'] + e[1..];
    } else {
      UnescapePlain(e, t);
    }
  }

  lemma Hex4Injective(m: nat, n: nat)
    requires m < 0x1_0000 && n < 0x1_0000
    ensures Hex4(m) == Hex4(n) <==> m == n
  {
    Hex4RoundTrip(m);
    Hex4RoundTrip(n);
  }

  lemma EscapeOfHex(c: char)
    requires ShortEscape(c) == None && NeedsHex(c)
    ensures EscapeChar(c) == ['\\', 'u'] + Hex4(c as int)
  {
  }

  lemma NotAmpersand(c: char)
    requires c != '&' && ShortEscape(c) == None && NeedsHex(c)
    ensures EscapeChar(c) != AMPERSAND && |EscapeChar(c)| == 6
  {
    EscapeOfHex(c);
    EscapeOfHex('&');
    Hex4Injective(c as int, '&' as int);
    SameTail(['\\', 'u'], Hex4(c as int), Hex4('&' as int));
    AmpersandIsEscaped();
  }

  lemma AmpersandIsEscaped()
    ensures EscapeChar('&') == AMPERSAND
  {
  }

  lemma SameTail(head: string, a: string, b: string)
    ensures head + a == head + b <==> a == b
  {
    assert (head + a)[|head|..] == a && (head + b)[|head|..] == b;
  }

  lemma HexHasNoBackslash(c: char)
    requires c != '\\'
    ensures EscapeChar(c) != "" && '\\' !in EscapeChar(c)[1..]
  {
    if ShortEscape(c) == None && NeedsHex(c) {
      Hex4RoundTrip(c as int);
      assert HexValue('\\') == -1;
      var e := EscapeChar(c);
      assert e[1..] == ['u'] + Hex4(c as int);
    }
  }

  lemma UnescapeAmpersand(t: string)
    ensures Unescape(EscapeChar('&') + t) == "&" + Unescape(t)
  {
    AmpersandIsEscaped();
    assert (AMPERSAND + t)[6..] == t;
  }

  lemma UnescapeBackslash(t: string)
    ensures Unescape(EscapeChar('\\') + t)
         == if AMPERSAND[1..] <= t then ['\\', '&'] + Unescape(t[5..]) else EscapeChar('\\') + Unescape(t)
  {
    var all, tail := EscapeChar('\\') + t, ['\\'] + t;
    assert all[1] != 'u' && all[1..] == tail && tail[1..] == t;
    assert Unescape(all) == ['\\'] + Unescape(tail);
    if AMPERSAND[1..] <= t {
      assert AMPERSAND <= tail && tail[6..] == t[5..];
    } else {
      AmpersandFirst(tail);
    }
  }

  lemma EscapeSplit(s: string, rest: string)
    requires s != ""
    ensures EscapeString(s) + rest == EscapeChar(s[0]) + (EscapeString(s[1..]) + rest)
  {
  }

  lemma EscapePlainFirst(s: string)
    requires s != "" && IsPlain(s[0])
    ensures EscapeString(s) == [s[0]] + EscapeString(s[1..])
  {
  }

  lemma Regroup(p: string, s: string)
    requires p != ""
    ensures [p[0]] + (p[1..] + s) == p + s
  {
  }

  predicate AllPlain(p: string) {
    p == "" || (IsPlain(p[0]) && AllPlain(p[1..]))
  }

  lemma {:induction false} PlainRun(p: string, s: string)
    requires p <= s && AllPlain(p)
    ensures EscapeString(s) == p + EscapeString(s[|p|..])
    decreases |p|
  {
    if p == "" {
      assert s[0..] == s && p + EscapeString(s) == EscapeString(s);
    } else {
      EscapePlainFirst(s);
      PlainRun(p[1..], s[1..]);
      assert s[1..][|p| - 1..] == s[|p|..];
      Regroup(p, EscapeString(s[|p|..]));
    }
  }

  lemma AmpersandIsPlain()
    ensures AllPlain(AMPERSAND[1..])
  {
    var u := AMPERSAND[1..];
    assert AllPlain(u[5..]);
    assert u[4..][1..] == u[5..] && AllPlain(u[4..]);
    assert u[3..][1..] == u[4..] && AllPlain(u[3..]);
    assert u[2..][1..] == u[3..] && AllPlain(u[2..]);
    assert u[1..][1..] == u[2..] && AllPlain(u[1..]);
  }

  /** What a string leaves of its text: the statement that holds of all strings by induction. */
  predicate Leaves(s: string, rest: string) {
    Unescape(EscapeString(s) + rest) == Written(s) + Unescape(rest)
  }

  lemma AmpersandLeaves(s: string, rest: string)
    requires s != "" && s[0] == '&' && Leaves(s[1..], rest)
    ensures Leaves(s, rest)
  {
    EscapeSplit(s, rest);
    UnescapeAmpersand(EscapeString(s[1..]) + rest);
    WrittenSplit(s, Unescape(rest));
  }

  lemma OtherLeaves(s: string, rest: string)
    requires s != "" && s[0] != '&' && s[0] != '\\' && Leaves(s[1..], rest)
    ensures Leaves(s, rest)
  {
    EscapeSplit(s, rest);
    UnescapeOther(s[0], EscapeString(s[1..]) + rest);
    WrittenSplit(s, Unescape(rest));
  }

  lemma BackslashLeaves(s: string, rest: string)
    requires s != "" && s[0] == '\\' && rest != "" && rest[0] == '\"'
    requires if AMPERSAND <= s then Leaves(s[6..], rest) else Leaves(s[1..], rest)
    ensures Leaves(s, rest)
  {
    var tail := s[1..];
    EscapeSplit(s, rest);
    UnescapeBackslash(EscapeString(tail) + rest);
    AmpersandIsPlain();
    PlainPrefix(AMPERSAND[1..], tail, rest);
    AmpersandFirst(s);
    WrittenSplit(s, Unescape(rest));
    if AMPERSAND <= s {
      BrokenTail(s, rest);
    }
  }

  lemma BrokenTail(s: string, rest: string)
    requires AMPERSAND <= s
    ensures |EscapeString(s[1..]) + rest| >= 5 && (EscapeString(s[1..]) + rest)[5..] == EscapeString(s[6..]) + rest
  {
    AmpersandIsPlain();
    AmpersandFirst(s);
    PlainRun(AMPERSAND[1..], s[1..]);
    assert s[1..][5..] == s[6..];
  }

  /** What is left of a quoted string by the replacement. */
  lemma {:induction false} UnescapeString(s: string, rest: string)
    requires rest != "" && rest[0] == '\"'
    ensures Leaves(s, rest)
    decreases |s|
  {
    if s == "" {
      assert EscapeString(s) + rest == rest && Written(s) + Unescape(rest) == Unescape(rest);
    } else if s[0] == '&' {
      UnescapeString(s[1..], rest);
      AmpersandLeaves(s, rest);
    } else if s[0] == '\\' {
      UnescapeString(if AMPERSAND <= s then s[6..] else s[1..], rest);
      BackslashLeaves(s, rest);
    } else {
      UnescapeString(s[1..], rest);
      OtherLeaves(s, rest);
    }
  }

  lemma AmpersandFirst(s: string)
    requires s != "" && s[0] == '\\'
    ensures AMPERSAND <= s <==> AMPERSAND[1..] <= s[1..]
  {
    if AMPERSAND[1..] <= s[1..] {
      assert s == [s[0]] + s[1..] && AMPERSAND == [AMPERSAND[0]] + AMPERSAND[1..];
    }
  }

  lemma WrittenSplit(s: string, rest: string)
    requires s != ""
    ensures Written(s) + rest
         == if s[0] == '&' then "&" + (Written(s[1..]) + rest)
            else if AMPERSAND <= s then ['\\', '&'] + (Written(s[6..]) + rest)
            else EscapeChar(s[0]) + (Written(s[1..]) + rest)
  {
  }

  /** What reading gives for a string that has one character more at its front. */
  function Longer(c: char, read: Option<(string, string)>): Option<(string, string)> {
    match read
    case None => None
    case Some((s, rest)) => Some(([c] + s, rest))
  }

  lemma ReadStep(t: string, c: char, n: nat)
    requires t != "" && t[0] != '\"' && ReadChar(t) == Some((c, n))
    ensures ReadString(t) == Longer(c, ReadString(t[n..]))
  {
  }

  lemma ReadBroken(t: string)
    requires |t| >= 2 && t[0] == '\\' && t[1] == '&'
    ensures ReadString(t) == None
  {
    assert ShortValue(t[1]) == None && !IsHexEscape(t);
    assert ReadChar(t) == None;
  }

  lemma ReadPlain(c: char, t: string)
    requires c == '&'
    ensures ReadChar([c] + t) == Some((c, 1)) && ([c] + t)[1..] == t
  {
  }

  lemma ReadAmpersand(s: string, end: string)
    requires s != "" && s[0] == '&'
    ensures ReadString(Written(s) + end) == Longer('&', ReadString(Written(s[1..]) + end))
  {
    WrittenSplit(s, end);
    ReadPlain('&', Written(s[1..]) + end);
    ReadStep("&" + (Written(s[1..]) + end), '&', 1);
  }

  lemma ReadOther(s: string, end: string)
    requires s != "" && s[0] != '&' && !(AMPERSAND <= s)
    ensures ReadString(Written(s) + end) == Longer(s[0], ReadString(Written(s[1..]) + end))
  {
    var t := Written(s[1..]) + end;
    WrittenSplit(s, end);
    ReadEscaped(s[0], t);
    ReadStep(EscapeChar(s[0]) + t, s[0], |EscapeChar(s[0])|);
  }

  lemma ReadSpoiled(s: string, end: string)
    requires AMPERSAND <= s
    ensures ReadString(Written(s) + end) == None
  {
    WrittenSplit(s, end);
    ReadBroken(Written(s) + end);
  }

  /** A string is read back after the replacement if and only if it is not broken; otherwise reading fails. */
  lemma {:induction false} ReadWritten(s: string, rest: string)
    ensures ReadString(Written(s) + (['\"'] + rest)) == if IsBroken(s) then None else Some((s, rest))
    decreases |s|
  {
    var end := ['\"'] + rest;
    if s == "" {
      assert Written(s) + end == end && end[1..] == rest;
    } else if AMPERSAND <= s {
      ReadSpoiled(s, end);
    } else {
      ReadWritten(s[1..], rest);
      assert [s[0]] + s[1..] == s;
      if s[0] == '&' {
        ReadAmpersand(s, end);
      } else {
        ReadOther(s, end);
      }
    }
  }
}
