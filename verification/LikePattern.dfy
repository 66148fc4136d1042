/**
  SQL's `name LIKE '%key%'`, with the wildcards and escapes that the key may hold itself.
 */
module LikePattern {
  import opened Wrappers

  /** What differs between databases: the escape character, if any, and which characters count as the same. */
  datatype Dialect = Dialect(escape: Option<char>, fold: char -> char)
  {
    predicate IsEscape(c: char) {
      escape == Some(c)
    }

    predicate Same(c: char, d: char) {
      fold(c) == fold(d)
    }
  }

  predicate IsDigit(c: char) {
    '0' <= c <= '9'
  }

  /** The escape character is neither a wildcard nor a digit; it and the percent sign are the same as themselves only. */
  ghost predicate Sane(d: Dialect) {
    && (forall c | d.IsEscape(c) :: c != '%' && c != '_' && !IsDigit(c))
    && (forall c, x | d.IsEscape(c) && d.Same(c, x) :: c == x)
    && (forall x | d.Same('%', x) :: x == '%')
  }

  datatype Token = Any | One | Literal(c: char)

  function Plain(c: char): Token {
    if c == '%' then Any else if c == '_' then One else Literal(c)
  }

  function Parse(d: Dialect, pattern: string): seq<Token> {
    if pattern == "" then []
    else if d.IsEscape(pattern[0]) && |pattern| > 1 then [Literal(pattern[1])] + Parse(d, pattern[2..])
    else [Plain(pattern[0])] + Parse(d, pattern[1..])
  }

  predicate Matches(d: Dialect, tokens: seq<Token>, s: string)
    decreases |tokens| + |s|
  {
    if tokens == [] then s == ""
    else match tokens[0]
      case Any => Matches(d, tokens[1..], s) || (s != "" && Matches(d, tokens, s[1..]))
      case One => s != "" && Matches(d, tokens[1..], s[1..])
      case Literal(c) => s != "" && d.Same(c, s[0]) && Matches(d, tokens[1..], s[1..])
  }

  /** `name LIKE '%key%'`. */
  predicate Finds(d: Dialect, key: string, name: string) {
    Matches(d, Parse(d, "%" + key + "%"), name)
  }

  lemma ParseAround(d: Dialect, key: string)
    requires Sane(d)
    ensures Parse(d, "%" + key + "%") == [Any] + Parse(d, key + "%")
  {
    assert ("%" + key + "%")[1..] == key + "%";
  }

  // ---------- How long a found name has to be ----------

  /** How many tokens stand for one character. */
  function Fixed(tokens: seq<Token>): nat {
    if tokens == [] then 0 else (if tokens[0] == Any then 0 else 1) + Fixed(tokens[1..])
  }

  lemma {:induction false} FixedAtMost(d: Dialect, tokens: seq<Token>, s: string)
    requires Matches(d, tokens, s)
    ensures Fixed(tokens) <= |s|
    decreases |tokens| + |s|
  {
    if tokens != [] {
      if tokens[0] == Any && !Matches(d, tokens[1..], s) {
        FixedAtMost(d, tokens, s[1..]);
      } else if tokens[0] == Any {
        FixedAtMost(d, tokens[1..], s);
      } else {
        FixedAtMost(d, tokens[1..], s[1..]);
      }
    }
  }

  function DigitCount(s: string): nat {
    if s == "" then 0 else (if IsDigit(s[0]) then 1 else 0) + DigitCount(s[1..])
  }

  lemma {:induction false} DigitCountConcat(s: string, t: string)
    ensures DigitCount(s + t) == DigitCount(s) + DigitCount(t)
  {
    if s == "" {
      assert s + t == t;
    } else {
      DigitCountConcat(s[1..], t);
      assert (s + t)[1..] == s[1..] + t;
    }
  }

  /** Digits stand for themselves in every pattern, escaped or not. */
  lemma {:induction false} DigitsAreFixed(d: Dialect, pattern: string)
    requires Sane(d)
    ensures DigitCount(pattern) <= Fixed(Parse(d, pattern))
  {
    if pattern != "" {
      if d.IsEscape(pattern[0]) && |pattern| > 1 {
        DigitsAreFixed(d, pattern[2..]);
        assert pattern[1..][1..] == pattern[2..];
        assert Parse(d, pattern)[1..] == Parse(d, pattern[2..]);
      } else {
        DigitsAreFixed(d, pattern[1..]);
        assert Parse(d, pattern)[1..] == Parse(d, pattern[1..]);
      }
    }
  }

  /** A found name is at least as long as the key has digits. */
  lemma FoundIsLong(d: Dialect, key: string, name: string)
    requires Sane(d) && Finds(d, key, name)
    ensures DigitCount(key) <= |name|
  {
    DigitsAreFixed(d, "%" + key + "%");
    FixedAtMost(d, Parse(d, "%" + key + "%"), name);
    DigitCountConcat("%" + key, "%");
    DigitCountConcat("%", key);
  }

  // ---------- Keys without special characters ----------

  function Literals(s: string): seq<Token> {
    seq(|s|, i requires 0 <= i < |s| => Literal(s[i]))
  }

  /** `part` occurs in `s` at `p`, up to what counts as the same. */
  predicate OccursAt(d: Dialect, part: string, s: string, p: nat) {
    p + |part| <= |s| && forall j | 0 <= j < |part| :: d.Same(part[j], s[p + j])
  }

  lemma {:induction false} MatchRest(d: Dialect, s: string)
    ensures Matches(d, [Any], s)
  {
    if s != "" {
      MatchRest(d, s[1..]);
    } else {
      assert [Any][1..] == [];
    }
  }

  /** The token stands for one character, this one among others. */
  predicate Fits(d: Dialect, t: Token, c: char) {
    t == One || (t.Literal? && d.Same(t.c, c))
  }

  predicate FitAt(d: Dialect, tokens: seq<Token>, s: string, p: nat) {
    p + |tokens| <= |s| && forall j | 0 <= j < |tokens| :: Fits(d, tokens[j], s[p + j])
  }

  lemma FitAfterFirst(d: Dialect, tokens: seq<Token>, s: string)
    requires tokens != [] && s != ""
    ensures FitAt(d, tokens, s, 0) <==> Fits(d, tokens[0], s[0]) && FitAt(d, tokens[1..], s[1..], 0)
  {
    if FitAt(d, tokens, s, 0) {
      forall j | 0 <= j < |tokens[1..]|
        ensures Fits(d, tokens[1..][j], s[1..][0 + j])
      {
        assert Fits(d, tokens[j + 1], s[0 + (j + 1)]);
      }
    }
    if Fits(d, tokens[0], s[0]) && FitAt(d, tokens[1..], s[1..], 0) {
      forall j | 0 <= j < |tokens|
        ensures Fits(d, tokens[j], s[0 + j])
      {
        if j > 0 {
          assert Fits(d, tokens[1..][j - 1], s[1..][0 + (j - 1)]);
        }
      }
    }
  }

  /** Tokens for one character each take that many characters from the front. */
  lemma {:induction false} MatchFixed(d: Dialect, tokens: seq<Token>, rest: seq<Token>, s: string)
    requires Any !in tokens
    ensures Matches(d, tokens + rest, s) <==> FitAt(d, tokens, s, 0) && Matches(d, rest, s[|tokens|..])
  {
    if tokens == [] {
      assert tokens + rest == rest && s[0..] == s;
    } else if s != "" {
      assert tokens[0] in tokens;
      MatchFixed(d, tokens[1..], rest, s[1..]);
      assert (tokens + rest)[1..] == tokens[1..] + rest;
      FitAfterFirst(d, tokens, s);
      assert FitAt(d, tokens, s, 0) ==> s[1..][|tokens[1..]|..] == s[|tokens|..];
    }
  }

  /** A percent sign takes any number of characters. */
  lemma {:induction false} MatchAny(d: Dialect, rest: seq<Token>, s: string)
    ensures Matches(d, [Any] + rest, s) <==> exists p: nat :: p <= |s| && Matches(d, rest, s[p..])
  {
    assert ([Any] + rest)[1..] == rest && s[0..] == s;
    if s != "" {
      MatchAny(d, rest, s[1..]);
      if p: nat :| p <= |s[1..]| && Matches(d, rest, s[1..][p..]) {
        assert s[1..][p..] == s[p + 1..];
      }
      if p: nat :| 0 < p <= |s| && Matches(d, rest, s[p..]) {
        assert s[1..][p - 1..] == s[p..];
      }
    }
  }

  lemma FitLater(d: Dialect, tokens: seq<Token>, s: string, p: nat)
    requires p <= |s|
    ensures FitAt(d, tokens, s[p..], 0) <==> FitAt(d, tokens, s, p)
  {
    if FitAt(d, tokens, s, p) {
      forall j | 0 <= j < |tokens|
        ensures Fits(d, tokens[j], s[p..][0 + j])
      {
        assert Fits(d, tokens[j], s[p + j]);
      }
    }
    if FitAt(d, tokens, s[p..], 0) {
      forall j | 0 <= j < |tokens|
        ensures Fits(d, tokens[j], s[p + j])
      {
        assert Fits(d, tokens[j], s[p..][0 + j]);
      }
    }
  }

  lemma MatchInside(d: Dialect, tokens: seq<Token>, s: string)
    requires Any !in tokens
    ensures Matches(d, [Any] + (tokens + [Any]), s) <==> exists p: nat :: FitAt(d, tokens, s, p)
  {
    MatchAny(d, tokens + [Any], s);
    forall p: nat | p <= |s|
      ensures Matches(d, tokens + [Any], s[p..]) <==> FitAt(d, tokens, s, p)
    {
      MatchFixed(d, tokens, [Any], s[p..]);
      FitLater(d, tokens, s, p);
      if FitAt(d, tokens, s[p..], 0) {
        MatchRest(d, s[p..][|tokens|..]);
      }
    }
  }

  lemma MatchAnywhere(d: Dialect, part: string, s: string)
    ensures Matches(d, [Any] + (Literals(part) + [Any]), s) <==> exists p: nat :: OccursAt(d, part, s, p)
  {
    MatchInside(d, Literals(part), s);
    forall p: nat
      ensures FitAt(d, Literals(part), s, p) <==> OccursAt(d, part, s, p)
    {
      LiteralsFit(d, part, s, p);
    }
  }

  lemma LiteralsFit(d: Dialect, part: string, s: string, p: nat)
    ensures FitAt(d, Literals(part), s, p) <==> OccursAt(d, part, s, p)
  {
    if FitAt(d, Literals(part), s, p) {
      forall j | 0 <= j < |part|
        ensures d.Same(part[j], s[p + j])
      {
        assert Fits(d, Literals(part)[j], s[p + j]);
      }
    }
  }

  predicate IsSpecial(d: Dialect, c: char) {
    c == '%' || c == '_' || d.IsEscape(c)
  }

  lemma {:induction false} ParsePlain(d: Dialect, key: string)
    requires Sane(d) && forall c | c in key :: !IsSpecial(d, c)
    ensures Parse(d, key + "%") == Literals(key) + [Any]
  {
    if key == "" {
      assert "" + "%" == "%" && "%"[1..] == "";
    } else {
      ParsePlain(d, key[1..]);
      assert (key + "%")[1..] == key[1..] + "%";
      assert key[0] in key;
      assert Literals(key) == [Literal(key[0])] + Literals(key[1..]);
    }
  }

  /** A key without special characters is found exactly in the names that contain it. */
  lemma FindsPlain(d: Dialect, key: string, name: string)
    requires Sane(d) && forall c | c in key :: !IsSpecial(d, c)
    ensures Finds(d, key, name) <==> exists p: nat :: OccursAt(d, key, name, p)
  {
    ParseAround(d, key);
    ParsePlain(d, key);
    MatchAnywhere(d, key, name);
  }

  // ---------- Keys with wildcards ----------

  function Singles(s: string): seq<Token> {
    seq(|s|, i requires 0 <= i < |s| => if s[i] == '_' then One else Literal(s[i]))
  }

  lemma ParseFirst(d: Dialect, c: char, rest: string)
    requires c != '%' && !d.IsEscape(c)
    ensures Parse(d, [c] + rest) == [if c == '_' then One else Literal(c)] + Parse(d, rest)
  {
    assert ([c] + rest)[1..] == rest;
  }

  lemma SinglesFirst(c: char, rest: string)
    ensures Singles([c] + rest) == [if c == '_' then One else Literal(c)] + Singles(rest)
  {
  }

  lemma PrependTokens(t: Token, a: seq<Token>, b: seq<Token>)
    ensures [t] + (a + b) == ([t] + a) + b
  {
  }

  /** One character more at the front of the key is one token more. */
  lemma ParseOneMore(d: Dialect, c: char, tail: string, rest: string)
    requires c != '%' && !d.IsEscape(c) && Parse(d, tail + rest) == Singles(tail) + Parse(d, rest)
    ensures Parse(d, ([c] + tail) + rest) == Singles([c] + tail) + Parse(d, rest)
  {
    ParseFirst(d, c, tail + rest);
    SinglesFirst(c, tail);
    PrependTokens(if c == '_' then One else Literal(c), Singles(tail), Parse(d, rest));
    assert ([c] + tail) + rest == [c] + (tail + rest);
  }

  /** Neither percent signs nor escapes are in the key. */
  predicate IsSimple(d: Dialect, key: string) {
    forall i | 0 <= i < |key| :: key[i] != '%' && !d.IsEscape(key[i])
  }

  lemma {:induction false} ParseSingles(d: Dialect, key: string, rest: string)
    requires IsSimple(d, key)
    ensures Parse(d, key + rest) == Singles(key) + Parse(d, rest)
  {
    if key == "" {
      assert key + rest == rest && Singles(key) == [];
    } else {
      ParseSingles(d, key[1..], rest);
      ParseOneMore(d, key[0], key[1..], rest);
      assert key == [key[0]] + key[1..];
    }
  }

  /** The key stands in the name from `p` on, an underscore for any character, others for what counts as the same. */
  predicate StandsAt(d: Dialect, key: string, name: string, p: nat) {
    p + |key| <= |name| && forall j | 0 <= j < |key| :: key[j] == '_' || d.Same(key[j], name[p + j])
  }

  lemma SinglesFit(d: Dialect, key: string, s: string, p: nat)
    ensures FitAt(d, Singles(key), s, p) <==> StandsAt(d, key, s, p)
  {
    if FitAt(d, Singles(key), s, p) {
      forall j | 0 <= j < |key|
        ensures key[j] == '_' || d.Same(key[j], s[p + j])
      {
        assert Fits(d, Singles(key)[j], s[p + j]);
      }
    }
  }

  lemma ParseEnd(d: Dialect, key: string)
    requires IsSimple(d, key)
    ensures Parse(d, key + "%") == Singles(key) + [Any]
  {
    ParseSingles(d, key, "%");
    assert "%"[1..] == "";
  }

  /** An underscore of a key is found in place of any one character. */
  lemma FindsUnderscores(d: Dialect, key: string, name: string)
    requires Sane(d) && IsSimple(d, key)
    ensures Finds(d, key, name) <==> exists p: nat :: StandsAt(d, key, name, p)
  {
    ParseAround(d, key);
    ParseEnd(d, key);
    MatchInside(d, Singles(key), name);
    forall p: nat
      ensures FitAt(d, Singles(key), name, p) <==> StandsAt(d, key, name, p)
    {
      SinglesFit(d, key, name, p);
    }
  }

  lemma ParsePercent(d: Dialect, x: string, y: string)
    requires Sane(d) && IsSimple(d, x) && IsSimple(d, y)
    ensures Parse(d, (x + "%" + y) + "%") == Singles(x) + ([Any] + (Singles(y) + [Any]))
  {
    ParseSingles(d, x, "%" + y + "%");
    ParseEnd(d, y);
    assert (x + "%" + y) + "%" == x + ("%" + y + "%") && ("%" + y + "%")[1..] == y + "%";
  }

  /** A percent sign of a key is found in place of anything between what stands before and after it. */
  lemma FindsPercent(d: Dialect, x: string, y: string, name: string)
    requires Sane(d) && IsSimple(d, x) && IsSimple(d, y)
    ensures Finds(d, x + "%" + y, name) <==> exists p: nat, q: nat :: p + |x| <= q && StandsAt(d, x, name, p) && StandsAt(d, y, name, q)
  {
    ParseAround(d, x + "%" + y);
    ParsePercent(d, x, y);
    var rest := [Any] + (Singles(y) + [Any]);
    MatchAny(d, Singles(x) + rest, name);
    forall p: nat | p <= |name|
      ensures Matches(d, Singles(x) + rest, name[p..])
              <==> StandsAt(d, x, name, p) && exists q: nat :: p + |x| <= q && StandsAt(d, y, name, q)
    {
      PercentAt(d, x, y, name, p);
    }
  }

  lemma PercentAt(d: Dialect, x: string, y: string, name: string, p: nat)
    requires p <= |name|
    ensures Matches(d, Singles(x) + ([Any] + (Singles(y) + [Any])), name[p..])
            <==> StandsAt(d, x, name, p) && exists q: nat :: p + |x| <= q && StandsAt(d, y, name, q)
  {
    MatchFixed(d, Singles(x), [Any] + (Singles(y) + [Any]), name[p..]);
    FitLater(d, Singles(x), name, p);
    SinglesFit(d, x, name, p);
    if StandsAt(d, x, name, p) {
      var after := p + |x|;
      assert name[p..][|x|..] == name[after..];
      MatchInside(d, Singles(y), name[after..]);
      if r: nat :| FitAt(d, Singles(y), name[after..], r) {
        assert name[after..][r..] == name[after + r..];
        FitLater(d, Singles(y), name[after..], r);
        FitLater(d, Singles(y), name, after + r);
        SinglesFit(d, y, name, after + r);
      }
      if q: nat :| after <= q && StandsAt(d, y, name, q) {
        SinglesFit(d, y, name, q);
        assert name[after..][q - after..] == name[q..];
        FitLater(d, Singles(y), name, q);
        FitLater(d, Singles(y), name[after..], q - after);
      }
    }
  }

  /** An escaped character of a key, a wildcard or not, stands for itself. */
  lemma FindsEscaped(d: Dialect, x: string, e: char, c: char, y: string, name: string)
    requires Sane(d) && d.IsEscape(e) && (forall z | z in x || z in y :: !IsSpecial(d, z))
    ensures Finds(d, x + [e, c] + y, name) <==> exists p: nat :: OccursAt(d, x + [c] + y, name, p)
  {
    var key, all := x + [e, c] + y, x + [c] + y;
    ParseAround(d, key);
    assert forall i | 0 <= i < |x| :: x[i] in x;
    ParseSingles(d, x, [e, c] + y + "%");
    ParsePlain(d, y);
    assert key + "%" == x + ([e, c] + y + "%") && ([e, c] + y + "%")[2..] == y + "%";
    assert Singles(x) == Literals(x);
    assert Literals(all) == Literals(x) + [Literal(c)] + Literals(y);
    assert Literals(x) + ([Literal(c)] + (Literals(y) + [Any])) == Literals(all) + [Any];
    MatchAnywhere(d, all, name);
  }

  lemma FindsLonger(d: Dialect, before: string, key: string, rest: string)
    requires Sane(d) && forall c | c in key :: !IsSpecial(d, c)
    ensures Finds(d, key, before + key + rest)
  {
    var name := before + key + rest;
    FindsPlain(d, key, name);
    assert OccursAt(d, key, name, |before|);
  }

  lemma FoundHasAll(d: Dialect, key: string, name: string, c: char)
    requires Sane(d) && (forall x | x in key :: !IsSpecial(d, x)) && c in key && Finds(d, key, name)
    ensures exists x :: x in name && d.Same(c, x)
  {
    FindsPlain(d, key, name);
    var p: nat :| OccursAt(d, key, name, p);
    var j :| 0 <= j < |key| && key[j] == c;
    assert d.Same(key[j], name[p + j]) && name[p + j] in name;
  }

  // ---------- Whether a key finds itself ----------

  lemma OccursAfterFirst(d: Dialect, u: string, s: string)
    requires u != "" && s != ""
    ensures OccursAt(d, u, s, 0) <==> d.Same(u[0], s[0]) && OccursAt(d, u[1..], s[1..], 0)
  {
    if OccursAt(d, u, s, 0) {
      assert d.Same(u[0], s[0 + 0]);
      forall j | 0 <= j < |u[1..]|
        ensures d.Same(u[1..][j], s[1..][0 + j])
      {
        assert d.Same(u[j + 1], s[0 + (j + 1)]);
      }
    }
    if d.Same(u[0], s[0]) && OccursAt(d, u[1..], s[1..], 0) {
      forall j | 0 <= j < |u|
        ensures d.Same(u[j], s[0 + j])
      {
        if j > 0 {
          assert d.Same(u[1..][j - 1], s[1..][0 + (j - 1)]);
        }
      }
    }
  }

  lemma AnyMatchesMore(d: Dialect, tokens: seq<Token>, s: string)
    requires tokens != [] && tokens[0] == Any && Matches(d, tokens[1..], s)
    ensures Matches(d, tokens, s)
  {
  }

  lemma {:induction false} MatchesItself(d: Dialect, key: string)
    requires Sane(d) && forall c | c in key :: !d.IsEscape(c)
    ensures Matches(d, Parse(d, key + "%"), key)
  {
    var tokens := Parse(d, key + "%");
    if key == "" {
      assert key + "%" == "%" && Parse(d, "%"[1..]) == [];
      assert tokens == [Any] && tokens[1..] == [];
    } else {
      MatchesItself(d, key[1..]);
      assert (key + "%")[1..] == key[1..] + "%" && key[0] in key;
      assert tokens[1..] == Parse(d, key[1..] + "%");
      if key[0] == '%' {
        AnyMatchesMore(d, tokens, key[1..]);
      }
    }
  }

  /** A key without escape characters finds itself, whatever wildcards it has. */
  lemma FindsItself(d: Dialect, key: string)
    requires Sane(d) && forall c | c in key :: !d.IsEscape(c)
    ensures Finds(d, key, key)
  {
    ParseAround(d, key);
    MatchesItself(d, key);
    AnyMatchesMore(d, [Any] + Parse(d, key + "%"), key);
  }

  /** What a key without wildcards stands for. */
  function Unescaped(d: Dialect, key: string): string {
    if key == "" then ""
    else if d.IsEscape(key[0]) && |key| > 1 then [key[1]] + Unescaped(d, key[2..])
    else [key[0]] + Unescaped(d, key[1..])
  }

  /** The last character of the key escapes what comes after the key. */
  predicate Dangles(d: Dialect, key: string) {
    if key == "" then false
    else if d.IsEscape(key[0]) then |key| == 1 || Dangles(d, key[2..])
    else Dangles(d, key[1..])
  }

  predicate NoWildcards(key: string) {
    forall c | c in key :: c != '%' && c != '_'
  }

  lemma {:induction false} ParseEscaped(d: Dialect, key: string)
    requires Sane(d) && NoWildcards(key)
    ensures !Dangles(d, key) ==> Parse(d, key + "%") == Literals(Unescaped(d, key)) + [Any]
    ensures Dangles(d, key) ==>
              var tokens := Parse(d, key + "%"); tokens != [] && tokens[|tokens| - 1] == Literal('%')
    decreases |key|
  {
    var all := key + "%";
    if key == "" {
      assert all == "%" && "%"[1..] == "";
    } else if d.IsEscape(key[0]) && |key| == 1 {
      assert all[2..] == "";
    } else if d.IsEscape(key[0]) {
      assert forall c | c in key[2..] :: c in key;
      ParseEscaped(d, key[2..]);
      assert all[2..] == key[2..] + "%";
      assert Literals(Unescaped(d, key)) == [Literal(key[1])] + Literals(Unescaped(d, key[2..]));
    } else {
      assert forall c | c in key[1..] :: c in key;
      ParseEscaped(d, key[1..]);
      assert all[1..] == key[1..] + "%" && key[0] in key;
      assert Literals(Unescaped(d, key)) == [Literal(key[0])] + Literals(Unescaped(d, key[1..]));
    }
  }

  lemma {:induction false} LastLiteral(d: Dialect, tokens: seq<Token>, s: string)
    requires tokens != [] && tokens[|tokens| - 1].Literal? && Matches(d, tokens, s)
    ensures s != "" && d.Same(tokens[|tokens| - 1].c, s[|s| - 1])
    decreases |tokens| + |s|
  {
    if |tokens| == 1 {
      assert tokens[1..] == [];
    } else if tokens[0] == Any && !Matches(d, tokens[1..], s) {
      LastLiteral(d, tokens, s[1..]);
    } else if tokens[0] == Any {
      LastLiteral(d, tokens[1..], s);
    } else {
      LastLiteral(d, tokens[1..], s[1..]);
    }
  }

  /** How many characters are no escapes. */
  function Others(d: Dialect, s: string): nat {
    if s == "" then 0 else (if d.IsEscape(s[0]) then 0 else 1) + Others(d, s[1..])
  }

  lemma {:induction false} OthersConcat(d: Dialect, s: string, t: string)
    ensures Others(d, s + t) == Others(d, s) + Others(d, t)
  {
    if s == "" {
      assert s + t == t;
    } else {
      OthersConcat(d, s[1..], t);
      assert (s + t)[1..] == s[1..] + t;
    }
  }

  lemma {:induction false} UnescapedKeepsOthers(d: Dialect, key: string)
    ensures Others(d, Unescaped(d, key)) == Others(d, key) && |Unescaped(d, key)| <= |key|
    decreases |key|
  {
    if key != "" {
      var u := Unescaped(d, key);
      if d.IsEscape(key[0]) && |key| > 1 {
        UnescapedKeepsOthers(d, key[2..]);
        assert key[1..][1..] == key[2..] && u[1..] == Unescaped(d, key[2..]);
      } else {
        UnescapedKeepsOthers(d, key[1..]);
        assert u[1..] == Unescaped(d, key[1..]);
      }
    }
  }

  lemma SameIsEscape(d: Dialect, c: char, x: char)
    requires Sane(d) && d.Same(c, x)
    ensures d.IsEscape(c) <==> d.IsEscape(x)
  {
    assert d.Same(x, c);
  }

  lemma {:induction false} SameOthers(d: Dialect, s: string, t: string)
    requires Sane(d) && |s| == |t| && forall j | 0 <= j < |s| :: d.Same(s[j], t[j])
    ensures Others(d, s) == Others(d, t)
  {
    if s != "" {
      SameOthers(d, s[1..], t[1..]);
      SameIsEscape(d, s[0], t[0]);
    }
  }

  lemma {:induction false} NoOthers(d: Dialect, s: string)
    ensures Others(d, s) == 0 <==> forall c | c in s :: d.IsEscape(c)
  {
    if s != "" {
      NoOthers(d, s[1..]);
      assert s == [s[0]] + s[1..];
    }
  }

  /**
    If what a text stands for reads, escape by escape, like `r` escapes followed by the text itself, then the
    text is nothing but escapes.
   */
  lemma {:induction false} NothingButEscapes(d: Dialect, s: string, r: nat)
    requires r >= 1 && !Dangles(d, s)
    requires var u := Unescaped(d, s);
             |u| <= r + |s| && forall j | 0 <= j < |u| :: d.IsEscape(u[j]) <==> j < r || d.IsEscape(s[j - r])
    ensures forall c | c in s :: d.IsEscape(c)
    decreases |s|
  {
    if s != "" {
      var u := Unescaped(d, s);
      assert d.IsEscape(u[0]) && d.IsEscape(s[0]) && |s| > 1;
      var rest := s[2..];
      UnescapedKeepsOthers(d, rest);
      forall j | 0 <= j < |Unescaped(d, rest)|
        ensures d.IsEscape(Unescaped(d, rest)[j]) <==> j < r + 1 || d.IsEscape(rest[j - (r + 1)])
      {
        assert Unescaped(d, rest)[j] == u[j + 1];
      }
      NothingButEscapes(d, rest, r + 1);
      assert s == [s[0], s[1]] + rest;
    }
  }

  /** Escapes stand at the end only, and evenly many. */
  predicate EscapesAtEnd(d: Dialect, key: string) {
    if key == "" then true
    else if d.IsEscape(key[0]) then |key| % 2 == 0 && forall c | c in key :: d.IsEscape(c)
    else EscapesAtEnd(d, key[1..])
  }

  lemma {:induction false} AllEscapes(d: Dialect, s: string)
    requires forall c | c in s :: d.IsEscape(c)
    ensures Dangles(d, s) <==> |s| % 2 == 1
    ensures |s| % 2 == 0 ==> Unescaped(d, s) == s[..|s| / 2]
    decreases |s|
  {
    if |s| == 1 {
      assert s[0] in s;
    } else if s != "" {
      assert s[0] in s && s[1] in s;
      assert forall c | c in s[2..] :: c in s;
      AllEscapes(d, s[2..]);
      assert s[0] == s[1];
      forall i | 0 <= i < |s|
        ensures s[i] == s[0]
      {
        assert s[i] in s;
      }
    }
  }

  /** A text reads like the beginning of what it is written as exactly if its escapes stand at the end, evenly many. */
  lemma {:induction false} ReadsLikeItself(d: Dialect, key: string)
    requires Sane(d)
    ensures !Dangles(d, key) && |Unescaped(d, key)| <= |key| && OccursAt(d, Unescaped(d, key), key, 0)
            && Others(d, key[|Unescaped(d, key)|..]) == 0
            ==> EscapesAtEnd(d, key)
    ensures EscapesAtEnd(d, key) ==> !Dangles(d, key) && OccursAt(d, Unescaped(d, key), key, 0)
    decreases |key|
  {
    UnescapedKeepsOthers(d, key);
    if key != "" && !d.IsEscape(key[0]) {
      var u, rest := Unescaped(d, key), key[1..];
      ReadsLikeItself(d, rest);
      UnescapedKeepsOthers(d, rest);
      assert u == [key[0]] + Unescaped(d, rest);
      assert key[|u|..] == rest[|Unescaped(d, rest)|..];
      OccursAfterFirst(d, u, key);
    } else if key != "" {
      EscapesFirst(d, key);
    }
  }

  /** What the key stands for, seen at its beginning, has escapes where the key has them. */
  lemma EscapePlaces(d: Dialect, key: string, j: nat)
    requires Sane(d) && |key| >= 2 && d.IsEscape(key[0]) && OccursAt(d, Unescaped(d, key), key, 0)
    requires j < |Unescaped(d, key[2..])|
    ensures j > 0 ==> j - 1 < |key[2..]|
    ensures d.IsEscape(Unescaped(d, key[2..])[j]) <==> d.IsEscape(key[j + 1])
  {
    var u := Unescaped(d, key);
    assert u[j + 1] == Unescaped(d, key[2..])[j] && d.Same(u[j + 1], key[0 + (j + 1)]);
    SameIsEscape(d, u[j + 1], key[j + 1]);
  }

  lemma OnlyEscapes(d: Dialect, key: string)
    requires Sane(d) && key != "" && d.IsEscape(key[0]) && !Dangles(d, key) && OccursAt(d, Unescaped(d, key), key, 0)
    ensures forall c | c in key :: d.IsEscape(c)
  {
    var u, rest := Unescaped(d, key), key[2..];
    assert d.Same(u[0], key[0 + 0]) && key[1] == u[0];
    SameIsEscape(d, u[0], key[0]);
    forall j | 0 <= j < |Unescaped(d, rest)|
      ensures j > 0 ==> j - 1 < |rest|
      ensures d.IsEscape(Unescaped(d, rest)[j]) <==> j < 1 || d.IsEscape(rest[j - 1])
    {
      EscapePlaces(d, key, j);
    }
    UnescapedKeepsOthers(d, rest);
    NothingButEscapes(d, rest, 1);
    assert key == [key[0], key[1]] + rest;
  }

  lemma EscapesFirst(d: Dialect, key: string)
    requires Sane(d) && key != "" && d.IsEscape(key[0])
    ensures !Dangles(d, key) && OccursAt(d, Unescaped(d, key), key, 0) ==> EscapesAtEnd(d, key)
    ensures EscapesAtEnd(d, key) ==> !Dangles(d, key) && OccursAt(d, Unescaped(d, key), key, 0)
  {
    if EscapesAtEnd(d, key) {
      AllEscapes(d, key);
      EqualEscapes(d, key);
    } else if !Dangles(d, key) && OccursAt(d, Unescaped(d, key), key, 0) {
      OnlyEscapes(d, key);
      AllEscapes(d, key);
    }
  }

  lemma EqualEscapes(d: Dialect, s: string)
    requires forall c | c in s :: d.IsEscape(c)
    ensures OccursAt(d, s[..|s| / 2], s, 0)
  {
  }

  /** Where a key that begins with another character contains what it stands for, it does so from its beginning to its last other character. */
  lemma OccursOnlyAtStart(d: Dialect, key: string, p: nat)
    requires Sane(d) && key != "" && !d.IsEscape(key[0]) && OccursAt(d, Unescaped(d, key), key, p)
    ensures p == 0 && Others(d, key[|Unescaped(d, key)|..]) == 0
  {
    var u := Unescaped(d, key);
    var a, b, c := key[..p], key[p..p + |u|], key[p + |u|..];
    assert key == a + (b + c) && (p > 0 ==> a[0] == key[0] && a[0] in a);
    OthersConcat(d, a, b + c);
    OthersConcat(d, b, c);
    UnescapedKeepsOthers(d, key);
    SameOthers(d, u, b);
    NoOthers(d, a);
  }

  /**
    A key without wildcards that begins with no escape finds itself if and only if its escapes stand at the
    end, evenly many.
   */
  lemma FindsItselfIffEscapesAtEnd(d: Dialect, key: string)
    requires Sane(d) && NoWildcards(key) && key != "" && !d.IsEscape(key[0])
    ensures Finds(d, key, key) <==> EscapesAtEnd(d, key)
  {
    var tokens := Parse(d, key + "%");
    assert key[|key| - 1] in key;
    ParseAround(d, key);
    ParseEscaped(d, key);
    ReadsLikeItself(d, key);
    UnescapedKeepsOthers(d, key);
    if Dangles(d, key) {
      var all := [Any] + tokens;
      assert all[|all| - 1] == Literal('%');
      if Matches(d, all, key) {
        LastLiteral(d, all, key);
      }
    } else {
      MatchAnywhere(d, Unescaped(d, key), key);
      if p: nat :| OccursAt(d, Unescaped(d, key), key, p) {
        OccursOnlyAtStart(d, key, p);
      }
    }
  }
}
