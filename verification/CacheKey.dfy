/**
  The key under which the result of a command is cached, before it is hashed:
  `language:JSON(args)`.  The language may hold any character, colons and quotes included, so that
  the key is unambiguous rests on the JSON text alone (strings as in section 7 of RFC 8259).
 */
module CacheKey {
  import opened JsonStrings
  import opened Wrappers

  /** A unit of a Go string: a character, or a byte that is not part of valid UTF-8. */
  datatype Unit = Rune(c: char) | Invalid(b: nat)

  type Text = seq<Unit>

  function Runes(s: string): (t: Text)
    ensures |t| == |s| && forall i | 0 <= i < |s| :: t[i] == Rune(s[i])
  {
    seq(|s|, i requires 0 <= i < |s| => Rune(s[i]))
  }

  // ---------- The JSON encoder ----------

  function Escape(u: Unit): Text {
    match u
    case Invalid(_) => Runes("\\u" + Hex4(0xfffd))
    case Rune(c) => Runes(EscapeChar(c))
  }

  function EscapeAll(s: Text): Text {
    if s == [] then [] else Escape(s[0]) + EscapeAll(s[1..])
  }

  function Quote(s: Text): Text {
    [Rune('\"')] + EscapeAll(s) + [Rune('\"')]
  }

  function Elements(args: seq<Text>): Text {
    if args == [] then []
    else if |args| == 1 then Quote(args[0])
    else Quote(args[0]) + [Rune(',')] + Elements(args[1..])
  }

  /** A nil slice is encoded as null. */
  function Json(args: Option<seq<Text>>): Text {
    match args
    case None => Runes("null")
    case Some(list) => [Rune('[')] + (Elements(list) + [Rune(']')])
  }

  function KeyText(language: Text, args: Option<seq<Text>>): Text {
    language + [Rune(':')] + Json(args)
  }

  /** A list is written between brackets, its elements with commas between them. */
  lemma ListTexts(a: Text, b: Text, more: seq<Text>)
    ensures Json(Some([])) == [Rune('['), Rune(']')] && Json(Some([a])) == [Rune('[')] + (Quote(a) + [Rune(']')])
    ensures Elements([a, b] + more) == Quote(a) + [Rune(',')] + Elements([b] + more)
    ensures Json(None) == [Rune('n'), Rune('u'), Rune('l'), Rune('l')]
  {
    assert ([a, b] + more)[1..] == [b] + more;
  }

  // ---------- The encoder is injective, up to the identity of invalid bytes ----------

  /** All invalid bytes are written alike. */
  function Readable(s: Text): Text {
    seq(|s|, i requires 0 <= i < |s| => if s[i].Invalid? then Invalid(0) else s[i])
  }

  function ReadableList(args: seq<Text>): seq<Text> {
    seq(|args|, i requires 0 <= i < |args| => Readable(args[i]))
  }

  function ReadableArgs(args: Option<seq<Text>>): Option<seq<Text>> {
    match args
    case None => None
    case Some(list) => Some(ReadableList(list))
  }

  /** The number a six-character escape stands for, if `u` is written as one. */
  function HexCode(u: Unit): Option<nat> {
    match u
    case Invalid(_) => Some(0xfffd)
    case Rune(c) => if ShortEscape(c) == None && NeedsHex(c) then Some(c as int) else None
  }

  lemma EscapeOfHex(u: Unit)
    requires HexCode(u).Some?
    ensures HexCode(u).value < 0x1_0000 && Escape(u) == Runes("\\u" + Hex4(HexCode(u).value))
  {
  }

  lemma EscapeOfOther(u: Unit)
    requires HexCode(u) == None
    ensures u.Rune? && Escape(u) == if ShortEscape(u.c).Some? then [Rune('\\'), Rune(ShortEscape(u.c).value)] else [u]
    ensures ShortEscape(u.c) == None ==> u.c != '\\'
    ensures ShortEscape(u.c).Some? ==> ShortEscape(u.c).value != 'u'
  {
  }

  lemma HexEscapePrefixFree(u: Unit, v: Unit, x: Text, y: Text)
    requires HexCode(u).Some? && HexCode(v).Some? && Escape(u) + x == Escape(v) + y
    ensures HexCode(u) == HexCode(v)
  {
    EscapeOfHex(u);
    EscapeOfHex(v);
    var m, n := HexCode(u).value, HexCode(v).value;
    assert Escape(u) == (Escape(u) + x)[..6] == (Escape(v) + y)[..6] == Escape(v);
    RunesInjective("\\u" + Hex4(m), "\\u" + Hex4(n));
    assert Hex4(m) == ("\\u" + Hex4(m))[2..] == ("\\u" + Hex4(n))[2..] == Hex4(n);
    Hex4Injective(m, n);
  }

  lemma RunesInjective(s: string, t: string)
    requires Runes(s) == Runes(t)
    ensures s == t
  {
    forall i | 0 <= i < |s|
      ensures s[i] == t[i]
    {
      assert Runes(s)[i] == Runes(t)[i];
    }
  }

  /** No escape is a prefix of another one. */
  lemma EscapePrefixFree(u: Unit, v: Unit, x: Text, y: Text)
    requires Escape(u) + x == Escape(v) + y
    ensures Readable([u]) == Readable([v]) && x == y
  {
    var s, t := Escape(u) + x, Escape(v) + y;
    if HexCode(u).Some? && HexCode(v).Some? {
      HexEscapePrefixFree(u, v, x, y);
      EscapeOfHex(u);
      EscapeOfHex(v);
      assert u.Rune? && v.Rune? ==> u.c == v.c;
    } else {
      if HexCode(u).Some? { EscapeOfHex(u); } else { EscapeOfOther(u); }
      if HexCode(v).Some? { EscapeOfHex(v); } else { EscapeOfOther(v); }
      assert s[0] == t[0];
      assert |Escape(u)| > 1 && |Escape(v)| > 1 ==> s[1] == t[1];
    }
    assert Escape(u) == Escape(v);
    assert x == s[|Escape(u)|..] && y == t[|Escape(v)|..];
  }

  lemma EscapeNotQuote(u: Unit)
    ensures |Escape(u)| > 0 && Escape(u)[0] != Rune('\"')
  {
  }

  /** A string and what comes after its closing quote. */
  function Closed(s: Text, rest: Text): Text {
    EscapeAll(s) + ([Rune('\"')] + rest)
  }

  lemma ClosedSplit(s: Text, rest: Text)
    ensures s == [] ==> Closed(s, rest) == [Rune('\"')] + rest
    ensures s != [] ==> Closed(s, rest) == Escape(s[0]) + Closed(s[1..], rest) && Closed(s, rest)[0] != Rune('\"')
  {
    if s != [] {
      EscapeNotQuote(s[0]);
      RegroupText(Escape(s[0]), EscapeAll(s[1..]), [Rune('\"')] + rest);
    }
  }

  lemma RegroupText(a: Text, b: Text, c: Text)
    ensures (a + b) + c == a + (b + c)
    ensures a != [] ==> (a + (b + c))[0] == a[0]
  {
  }

  /** Where two quoted strings begin the same text, they are the same string, with the same rest. */
  lemma {:induction false} StringPrefixFree(s: Text, t: Text, x: Text, y: Text)
    requires Closed(s, x) == Closed(t, y)
    ensures Readable(s) == Readable(t) && x == y
    decreases |s| + |t|
  {
    ClosedSplit(s, x);
    ClosedSplit(t, y);
    if s != [] && t != [] {
      EscapePrefixFree(s[0], t[0], Closed(s[1..], x), Closed(t[1..], y));
      StringPrefixFree(s[1..], t[1..], x, y);
      assert Readable(s) == Readable([s[0]]) + Readable(s[1..]);
      assert Readable(t) == Readable([t[0]]) + Readable(t[1..]);
    } else {
      assert s == [] && t == [];
      assert x == ([Rune('\"')] + x)[1..] && y == ([Rune('\"')] + y)[1..];
    }
  }

  /** The elements up to the end of the list. */
  function Body(args: seq<Text>): Text {
    Elements(args) + [Rune(']')]
  }

  /** What follows the first element up to the end of the list. */
  function AfterFirst(args: seq<Text>): Text
    requires args != []
  {
    if |args| == 1 then [Rune(']')] else [Rune(',')] + Body(args[1..])
  }

  lemma BodySplit(args: seq<Text>)
    ensures args == [] ==> Body(args) == [Rune(']')]
    ensures args != [] ==> Body(args) == [Rune('\"')] + Closed(args[0], AfterFirst(args))
  {
    if args != [] {
      QuoteThen(args[0], AfterFirst(args));
      if |args| > 1 {
        Reassociate(Quote(args[0]), [Rune(',')], Elements(args[1..]), [Rune(']')]);
      }
    }
  }

  lemma QuoteThen(s: Text, rest: Text)
    ensures Quote(s) + rest == [Rune('\"')] + Closed(s, rest)
  {
    Reassociate([Rune('\"')], EscapeAll(s), [Rune('\"')], rest);
  }

  lemma Reassociate(a: Text, b: Text, c: Text, d: Text)
    ensures a + b + c + d == a + (b + (c + d))
  {
  }

  lemma FirstElementEqual(a: seq<Text>, b: seq<Text>)
    requires a != [] && b != [] && Body(a) == Body(b)
    ensures Readable(a[0]) == Readable(b[0])
    ensures |a| == 1 <==> |b| == 1
    ensures |a| > 1 ==> Body(a[1..]) == Body(b[1..])
  {
    BodySplit(a);
    BodySplit(b);
    assert Closed(a[0], AfterFirst(a)) == Body(a)[1..] == Closed(b[0], AfterFirst(b));
    StringPrefixFree(a[0], b[0], AfterFirst(a), AfterFirst(b));
    assert AfterFirst(a)[0] == AfterFirst(b)[0];
    if |a| > 1 {
      assert Body(a[1..]) == AfterFirst(a)[1..] && Body(b[1..]) == AfterFirst(b)[1..];
    }
  }

  lemma ReadableListSplit(a: seq<Text>)
    requires a != []
    ensures ReadableList(a) == [Readable(a[0])] + ReadableList(a[1..])
  {
  }

  lemma {:induction false} BodyInjective(a: seq<Text>, b: seq<Text>)
    requires Body(a) == Body(b)
    ensures ReadableList(a) == ReadableList(b)
  {
    BodySplit(a);
    BodySplit(b);
    assert Body(a)[0] == Body(b)[0];
    if a != [] && b != [] {
      FirstElementEqual(a, b);
      ReadableListSplit(a);
      ReadableListSplit(b);
      if |a| > 1 {
        BodyInjective(a[1..], b[1..]);
      } else {
        assert a[1..] == [] && b[1..] == [];
      }
    }
  }

  lemma JsonInjective(a: Option<seq<Text>>, b: Option<seq<Text>>)
    requires Json(a) == Json(b)
    ensures ReadableArgs(a) == ReadableArgs(b)
  {
    assert Json(a)[0] == Json(b)[0];
    if a.Some? && b.Some? {
      assert Json(a)[1..] == Body(a.value) && Json(b)[1..] == Body(b.value);
      BodyInjective(a.value, b.value);
    }
  }

  lemma {:induction false} EscapeAllOfReadable(s: Text)
    ensures EscapeAll(Readable(s)) == EscapeAll(s)
  {
    if s != [] {
      EscapeAllOfReadable(s[1..]);
      assert Readable(s)[1..] == Readable(s[1..]);
    }
  }

  lemma {:induction false} ElementsOfReadable(a: seq<Text>)
    ensures Elements(ReadableList(a)) == Elements(a)
  {
    if a != [] {
      EscapeAllOfReadable(a[0]);
      ElementsOfReadable(a[1..]);
      assert ReadableList(a)[1..] == ReadableList(a[1..]);
    }
  }

  // ---------- Where strings begin and end in a JSON text ----------

  /** How a reader of the JSON text stands: between strings, inside one, after a backslash, or lost. */
  datatype Mode = Outside | Inside | Escaped | Lost

  function Read(m: Mode, u: Unit): Mode {
    match m
    case Outside =>
      if u == Rune('\"') then Inside
      else if u == Rune('[') || u == Rune(']') || u == Rune(',') then Outside
      else Lost
    case Inside => if u == Rune('\"') then Outside else if u == Rune('\\') then Escaped else Inside
    case Escaped => if u.Rune? && u.c in {'\"', '\\', 'b', 'f', 'n', 'r', 't', 'u'} then Inside else Lost
    case Lost => Lost
  }

  function ReadAll(m: Mode, t: Text): Mode
    decreases t
  {
    if t == [] then m else ReadAll(Read(m, t[0]), t[1..])
  }

  lemma {:induction false} ReadConcat(m: Mode, s: Text, t: Text)
    ensures ReadAll(m, s + t) == ReadAll(ReadAll(m, s), t)
    decreases s
  {
    if s == [] {
      assert s + t == t;
    } else {
      ReadConcat(Read(m, s[0]), s[1..], t);
      assert (s + t)[1..] == s[1..] + t;
    }
  }

  lemma {:induction false} LostForever(t: Text)
    ensures ReadAll(Lost, t) == Lost
  {
    if t != [] {
      LostForever(t[1..]);
    }
  }

  lemma HexStaysInside(h: string)
    requires forall i | 0 <= i < |h| :: h[i] != '\"' && h[i] != '\\'
    ensures ReadAll(Inside, Runes("\\u" + h)) == Inside
  {
    var e := Runes("\\u" + h);
    ReadHex(h);
    assert e == [Rune('\\')] + ([Rune('u')] + Runes(h));
    ReadConcat(Inside, [Rune('\\')], [Rune('u')] + Runes(h));
    ReadConcat(Escaped, [Rune('u')], Runes(h));
  }

  lemma EscapeStaysInside(u: Unit)
    ensures ReadAll(Inside, Escape(u)) == Inside
  {
    if HexCode(u).Some? {
      EscapeOfHex(u);
      HexStaysInside(Hex4(HexCode(u).value));
    } else {
      EscapeOfOther(u);
      var e := Escape(u);
      assert ReadAll(Inside, e) == ReadAll(Read(Inside, e[0]), e[1..]);
      if |e| == 2 {
        assert ReadAll(Escaped, [e[1]]) == Read(Escaped, e[1]);
        assert e[1..] == [e[1]];
      }
    }
  }

  lemma {:induction false} ReadHex(h: string)
    requires forall i | 0 <= i < |h| :: h[i] != '\"' && h[i] != '\\'
    ensures ReadAll(Inside, Runes(h)) == Inside
  {
    if h != [] {
      ReadHex(h[1..]);
      assert Runes(h)[1..] == Runes(h[1..]);
    }
  }

  lemma {:induction false} EscapeAllStaysInside(s: Text)
    ensures ReadAll(Inside, EscapeAll(s)) == Inside
  {
    if s != [] {
      EscapeStaysInside(s[0]);
      EscapeAllStaysInside(s[1..]);
      ReadConcat(Inside, Escape(s[0]), EscapeAll(s[1..]));
    }
  }

  lemma QuoteReturnsOutside(s: Text)
    ensures ReadAll(Outside, Quote(s)) == Outside
  {
    EscapeAllStaysInside(s);
    ReadConcat(Outside, [Rune('\"')], EscapeAll(s));
    ReadConcat(Outside, [Rune('\"')] + EscapeAll(s), [Rune('\"')]);
  }

  lemma {:induction false} ElementsReturnOutside(args: seq<Text>)
    ensures ReadAll(Outside, Elements(args)) == Outside
  {
    if args != [] {
      QuoteReturnsOutside(args[0]);
      if |args| > 1 {
        ElementsReturnOutside(args[1..]);
        ReadConcat(Outside, Quote(args[0]), [Rune(',')]);
        ReadConcat(Outside, Quote(args[0]) + [Rune(',')], Elements(args[1..]));
      }
    }
  }

  lemma ListReturnsOutside(list: seq<Text>)
    ensures ReadAll(Outside, Json(Some(list))) == Outside
  {
    ElementsReturnOutside(list);
    ReadConcat(Outside, [Rune('[')], Elements(list) + [Rune(']')]);
    ReadConcat(Outside, Elements(list), [Rune(']')]);
  }

  /**
    Quote parity: a text that ends outside strings when read from outside one cannot do so when
    read from inside one, since every quote moves both readers and a backslash loses one of them.
   */
  lemma {:induction false} QuoteParity(t: Text)
    ensures !(ReadAll(Outside, t) == Outside && ReadAll(Inside, t) == Outside)
  {
    if t != [] {
      QuoteParity(t[1..]);
      LostForever(t[1..]);
    }
  }

  /** A colon in the JSON text of a list can only be inside a string. */
  lemma ColonIsInside(before: Text, after: Text, list: seq<Text>)
    requires Json(Some(list)) == before + [Rune(':')] + after
    ensures ReadAll(Inside, after) == Outside
  {
    ListReturnsOutside(list);
    ReadConcat(Outside, before, [Rune(':')]);
    ReadConcat(Outside, before + [Rune(':')], after);
    LostForever(after);
  }

  /** If one language is shorter, the JSON text after it takes in the colon and JSON text of the other key. */
  lemma ShorterLanguage(l1: Text, j1: Text, l2: Text, j2: Text)
    requires l1 + [Rune(':')] + j1 == l2 + [Rune(':')] + j2 && |l1| < |l2|
    ensures j1 == l2[|l1| + 1..] + [Rune(':')] + j2
  {
    var k := l2 + [Rune(':')] + j2;
    assert j1 == (l1 + [Rune(':')] + j1)[|l1| + 1..] == k[|l1| + 1..];
  }

  /** Two different languages never share a key: the colon of the longer one would be inside a string. */
  lemma LanguageIsNotPrefix(l1: Text, a1: Option<seq<Text>>, l2: Text, a2: Option<seq<Text>>)
    requires KeyText(l1, a1) == KeyText(l2, a2)
    ensures |l1| >= |l2|
  {
    if |l1| < |l2| {
      var j1, j2 := Json(a1), Json(a2);
      var before := l2[|l1| + 1..];
      ShorterLanguage(l1, j1, l2, j2);
      assert j1[|before|] == Rune(':') && j1[|j1| - 1] == j2[|j2| - 1];
      assert a1.Some? && a2.Some?;
      ColonIsInside(before, j2, a1.value);
      ListReturnsOutside(a2.value);
      QuoteParity(j2);
    }
  }

  /**
    Two requests have the same key text exactly when they have the same language and the same
    arguments, for all languages and all argument lists, nil and empty told apart.  (Invalid bytes
    inside arguments are all read as the replacement character.)
   */
  lemma KeyInjective(l1: Text, a1: Option<seq<Text>>, l2: Text, a2: Option<seq<Text>>)
    ensures KeyText(l1, a1) == KeyText(l2, a2) <==> l1 == l2 && ReadableArgs(a1) == ReadableArgs(a2)
  {
    if KeyText(l1, a1) == KeyText(l2, a2) {
      LanguageIsNotPrefix(l1, a1, l2, a2);
      LanguageIsNotPrefix(l2, a2, l1, a1);
      assert l1 == KeyText(l1, a1)[..|l1|] == l2;
      assert Json(a1) == KeyText(l1, a1)[|l1| + 1..] == Json(a2);
      JsonInjective(a1, a2);
    }
    if ReadableArgs(a1) == ReadableArgs(a2) && a1.Some? {
      ElementsOfReadable(a1.value);
      ElementsOfReadable(a2.value);
    }
  }

  /** Arguments decoded from a request, nil among them, are valid text; for these the key tells everything apart. */
  lemma KeyInjectiveOnValidArgs(l1: Text, a1: Option<seq<Text>>, l2: Text, a2: Option<seq<Text>>)
    requires ValidArgs(a1) && ValidArgs(a2)
    ensures KeyText(l1, a1) == KeyText(l2, a2) <==> l1 == l2 && a1 == a2
  {
    KeyInjective(l1, a1, l2, a2);
    ValidIsReadable(a1);
    ValidIsReadable(a2);
  }

  predicate ValidArgs(args: Option<seq<Text>>) {
    args.Some? ==> forall i, j :: 0 <= i < |args.value| && 0 <= j < |args.value[i]| ==> args.value[i][j].Rune?
  }

  lemma ValidIsReadable(args: Option<seq<Text>>)
    requires ValidArgs(args)
    ensures ReadableArgs(args) == args
  {
    if args.Some? {
      assert forall i | 0 <= i < |args.value| :: Readable(args.value[i]) == args.value[i];
      assert ReadableList(args.value) == args.value;
    }
  }
}
