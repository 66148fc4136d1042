/**
  The text of a translation file: nested JSON objects, indented by two spaces, with keys in order, in which
  escaped ampersands have been replaced; and reading such a text.
 */
module TranslationFile {
  import opened Wrappers
  import opened JsonStrings
  import opened StringOrder

  type Words = map<string, string>

  type Data = map<string, Words>

  // ---------- Tokens ----------

  datatype Token = Open | Close | Colon | Comma | Null | Str(s: string)

  predicate IsSpace(c: char) {
    c == ' ' || c == '\n' || c == '\r' || c == '\t'
  }

  const NULL := ['n', 'u', 'l', 'l']

  function Mark(c: char): Option<Token> {
    if c == '{' then Some(Open)
    else if c == '}' then Some(Close)
    else if c == ':' then Some(Colon)
    else if c == ',' then Some(Comma)
    else None
  }

  function Cons(token: Token, rest: Option<seq<Token>>): Option<seq<Token>> {
    match rest
    case None => None
    case Some(tokens) => Some([token] + tokens)
  }

  /** The tokens of a text; none if it is malformed, or has a value that is no object, string or null. */
  function Lex(t: string): Option<seq<Token>>
    decreases |t|
  {
    if t == "" then Some([])
    else if IsSpace(t[0]) then Lex(t[1..])
    else if Mark(t[0]).Some? then Cons(Mark(t[0]).value, Lex(t[1..]))
    else if NULL <= t then Cons(Null, Lex(t[4..]))
    else if t[0] != '\"' then None
    else match ReadString(t[1..])
      case None => None
      case Some((s, rest)) => Cons(Str(s), Lex(rest))
  }

  // ---------- Reading ----------

  /** The pairs of an object up to its end, added to `words`; null for a string leaves it empty. */
  function ReadPairs(tokens: seq<Token>, words: Words): (r: Option<(Words, seq<Token>)>)
    ensures r.Some? ==> |r.value.1| < |tokens|
  {
    if |tokens| < 4 || !tokens[0].Str? || tokens[1] != Colon then None
    else
      var value := if tokens[2] == Null then Some("") else if tokens[2].Str? then Some(tokens[2].s) else None;
      if value == None then None
      else
        var more := words[tokens[0].s := value.value];
        if tokens[3] == Comma then ReadPairs(tokens[4..], more)
        else if tokens[3] == Close then Some((more, tokens[4..]))
        else None
  }

  /** A value of the outer object: the words of a namespace, and what comes after. */
  function ReadWords(tokens: seq<Token>): (r: Option<(Words, seq<Token>)>)
    ensures r.Some? ==> |r.value.1| < |tokens|
  {
    if tokens == [] then None
    else if tokens[0] == Null then Some((map[], tokens[1..]))
    else if tokens[0] != Open then None
    else if |tokens| > 1 && tokens[1] == Close then Some((map[], tokens[2..]))
    else ReadPairs(tokens[1..], map[])
  }

  function ReadNamespaces(tokens: seq<Token>, data: Data): (r: Option<(Data, seq<Token>)>)
    decreases |tokens|
  {
    if |tokens| < 3 || !tokens[0].Str? || tokens[1] != Colon then None
    else match ReadWords(tokens[2..])
      case None => None
      case Some((words, rest)) =>
        var more := data[tokens[0].s := words];
        if rest == [] then None
        else if rest[0] == Comma then ReadNamespaces(rest[1..], more)
        else if rest[0] == Close then Some((more, rest[1..]))
        else None
  }

  function ReadTokens(tokens: seq<Token>): Option<Data> {
    if tokens == [Null] || tokens == [Open, Close] then Some(map[])
    else if tokens == [] || tokens[0] != Open then None
    else match ReadNamespaces(tokens[1..], map[])
      case None => None
      case Some((data, rest)) => if rest == [] then Some(data) else None
  }

  /** `json.Unmarshal`; none where it fails, on which the code panics. */
  function ReadText(t: string): Option<Data> {
    match Lex(t)
    case None => None
    case Some(tokens) => ReadTokens(tokens)
  }

  /** White space, marks and the word null, in front of any text. */
  lemma LexSpaces(t: string)
    ensures Lex(" " + t) == Lex(t) && Lex("\n" + t) == Lex(t) && Lex("\r" + t) == Lex(t) && Lex("\t" + t) == Lex(t)
  {
    assert (" " + t)[1..] == t && ("\n" + t)[1..] == t && ("\r" + t)[1..] == t && ("\t" + t)[1..] == t;
  }

  lemma LexMarks(t: string)
    ensures Lex("{" + t) == Cons(Open, Lex(t)) && Lex("}" + t) == Cons(Close, Lex(t))
    ensures Lex(":" + t) == Cons(Colon, Lex(t)) && Lex("," + t) == Cons(Comma, Lex(t))
  {
    assert ("{" + t)[1..] == t && ("}" + t)[1..] == t && (":" + t)[1..] == t && ("," + t)[1..] == t;
  }

  lemma LexNull(t: string)
    ensures Lex("null" + t) == Cons(Null, Lex(t))
  {
    assert "null" + t == NULL + t && ("null" + t)[4..] == t;
  }

  /** No other character begins a token. */
  lemma LexOther(c: char, t: string)
    requires c !in " \n\r\t{}:,\"" && !("null" <= [c] + t)
    ensures Lex([c] + t) == None
  {
    assert forall i: nat | i < 9 :: c != " \n\r\t{}:,\""[i];
    assert NULL == "null";
  }

  /** Files that are empty, or null as a whole; and files without a colon, an end, or with something after the end. */
  lemma ReadTokensOf(n: string, other: Token)
    ensures ReadTokens([Null]) == Some(map[]) && ReadTokens([]) == None
    ensures ReadTokens([Open, Str(n), Comma, other, Close]) == None && ReadTokens([Open, Str(n), Colon, Null]) == None
    ensures ReadTokens([Open, Str(n), Colon, Null, Close, other]) == None
  {
    var unfinished, longer := [Open, Str(n), Colon, Null], [Open, Str(n), Colon, Null, Close, other];
    assert unfinished[1..][2..] == [Null] && unfinished[1..][2..][1..] == [];
    assert longer[1..][2..] == [Null, Close, other] && longer[1..][2..][1..] == [Close, other];
  }

  /** A namespace is an object or null; after it, and after a pair, stands a comma or a closing brace. */
  lemma ReadOther(other: Token, rest: seq<Token>, k: string, v: string)
    ensures other != Open && other != Null ==> ReadWords([other] + rest) == None
    ensures other != Comma && other != Close ==> ReadPairs([Str(k), Colon, Str(v), other] + rest, map[]) == None
    ensures other != Comma && other != Close ==> ReadNamespaces([Str(k), Colon, Null, other] + rest, map[]) == None
  {
    var tokens := [Str(k), Colon, Null, other] + rest;
    assert tokens[2..] == [Null, other] + rest && tokens[2..][1..] == [other] + rest;
  }

  // ---------- Writing ----------

  /** A piece of the text: a mark with white space around it, or a quoted string. */
  datatype Piece = Punct(token: Token, before: string, after: string) | Quoted(s: string)

  function MarkChar(token: Token): char {
    match token
    case Open => '{'
    case Close => '}'
    case Colon => ':'
    case _ => ','
  }

  function PieceText(piece: Piece): string {
    match piece
    case Punct(token, before, after) => before + [MarkChar(token)] + after
    case Quoted(s) => ['\"'] + EscapeString(s) + ['\"']
  }

  function Text(pieces: seq<Piece>): string {
    if pieces == [] then "" else PieceText(pieces[0]) + Text(pieces[1..])
  }

  function PieceToken(piece: Piece): Token {
    match piece
    case Punct(token, _, _) => token
    case Quoted(s) => Str(s)
  }

  function Tokens(pieces: seq<Piece>): seq<Token> {
    seq(|pieces|, i requires 0 <= i < |pieces| => PieceToken(pieces[i]))
  }

  /** A line feed and `depth` times two spaces. */
  function Indent(depth: nat): string {
    if depth == 0 then "\n" else Indent(depth - 1) + "  "
  }

  function Pair(words: Words, key: string): seq<Piece>
    requires key in words
  {
    [Quoted(key), Punct(Colon, "", " "), Quoted(words[key])]
  }

  function Pairs(words: Words, keys: seq<string>): seq<Piece>
    requires forall k | k in keys :: k in words
  {
    if keys == [] then []
    else if |keys| == 1 then Pair(words, keys[0])
    else Pair(words, keys[0]) + [Punct(Comma, "", Indent(2))] + Pairs(words, keys[1..])
  }

  /** The words of a namespace, with keys in the given order. */
  function WordsPieces(words: Words, keys: seq<string>): seq<Piece>
    requires forall k | k in keys :: k in words
  {
    if keys == [] then [Punct(Open, "", ""), Punct(Close, "", "")]
    else [Punct(Open, "", Indent(2))] + Pairs(words, keys) + [Punct(Close, Indent(1), "")]
  }

  function NamespacePieces(inner: map<string, seq<Piece>>, keys: seq<string>): seq<Piece>
    requires forall k | k in keys :: k in inner
  {
    if keys == [] then []
    else
      [Quoted(keys[0]), Punct(Colon, "", " ")] + inner[keys[0]]
      + (if |keys| == 1 then [] else [Punct(Comma, "", Indent(1))] + NamespacePieces(inner, keys[1..]))
  }

  /** The namespaces in the given order, with the pieces of each. */
  function ObjectPieces(inner: map<string, seq<Piece>>, keys: seq<string>): seq<Piece>
    requires forall k | k in keys :: k in inner
  {
    if keys == [] then [Punct(Open, "", ""), Punct(Close, "", "")]
    else [Punct(Open, "", Indent(1))] + NamespacePieces(inner, keys) + [Punct(Close, Indent(0), "")]
  }

  function Inner(data: Data): map<string, seq<Piece>> {
    map n | n in data :: WordsPieces(data[n], SortedKeys(data[n].Keys))
  }

  /** Keys come in order, outside and inside. */
  function DataPieces(data: Data): seq<Piece> {
    ObjectPieces(Inner(data), SortedKeys(data.Keys))
  }

  /** `json.MarshalIndent`, the replacement of escaped ampersands, and a line feed. */
  function WriteText(data: Data): string {
    Unescape(Text(DataPieces(data))) + "\n"
  }

  lemma SortedSingle(k: string)
    ensures SortedKeys({k}) == [k]
  {
    SortedKeysSplit({k});
    assert {k} - {k} == {};
    assert SortedKeys({k}) == [SortedKeys({k})[0]] + SortedKeys({k})[1..];
  }

  /** The keys of a pair of strings, in order. */
  lemma SortedPair(k: string, l: string)
    requires AtMost(k, l) && k != l
    ensures SortedKeys({k, l}) == [k, l]
  {
    SortedKeysSplit({k, l});
    SortedSingle(k);
    SortedSingle(l);
    var keys := SortedKeys({k, l});
    if keys[0] == l {
      Antisymmetric(k, l);
    }
    assert {k, l} - {k} == {l};
    assert keys == [keys[0]] + keys[1..];
  }

  lemma Indents()
    ensures Indent(0) == "\n" && Indent(1) == "\n  " && Indent(2) == "\n    "
  {
    assert "\n" + "  " == "\n  " && "\n  " + "  " == "\n    ";
  }

  /** Two words stand on lines of their own, each indented by four spaces, with a comma after the first. */
  lemma TwoPairs(words: Words, k: string, l: string)
    requires k in words && l in words
    ensures WordsPieces(words, [k, l])
         == [Punct(Open, "", "\n    ")]
          + ([Quoted(k), Punct(Colon, "", " "), Quoted(words[k])] + [Punct(Comma, "", "\n    ")]
             + [Quoted(l), Punct(Colon, "", " "), Quoted(words[l])])
          + [Punct(Close, "\n  ", "")]
  {
    Indents();
    assert [k, l][1..] == [l] && Pairs(words, [l]) == Pair(words, l);
  }

  lemma OneNamespace(inner: map<string, seq<Piece>>, n: string)
    requires n in inner
    ensures ObjectPieces(inner, [n])
         == [Punct(Open, "", Indent(1))] + ([Quoted(n), Punct(Colon, "", " ")] + inner[n]) + [Punct(Close, Indent(0), "")]
  {
    assert NamespacePieces(inner, [n]) == [Quoted(n), Punct(Colon, "", " ")] + inner[n];
  }

  /** An object without entries is a pair of braces. */
  lemma NoPieces(words: Words, inner: map<string, seq<Piece>>)
    ensures WordsPieces(words, []) == ObjectPieces(inner, []) && Text(WordsPieces(words, [])) == "{}"
  {
    assert Text([Punct(Close, "", "")]) == "}";
  }

  /** A namespace of two words stands on a line indented by two spaces, with its words in the order of their keys. */
  lemma PiecesOfOne(n: string, words: Words, k: string, l: string)
    requires words.Keys == {k, l} && AtMost(k, l) && k != l
    ensures DataPieces(map[n := words])
         == [Punct(Open, "", "\n  ")] + ([Quoted(n), Punct(Colon, "", " ")] + WordsPieces(words, [k, l])) + [Punct(Close, "\n", "")]
  {
    Indents();
    var data: Data := map[n := words];
    SortedPair(k, l);
    SortedSingle(n);
    assert data.Keys == {n} && Inner(data)[n] == WordsPieces(words, [k, l]);
    OneNamespace(Inner(data), n);
  }

  /** A namespace that is null has no words. */
  lemma ReadNullNamespace(n: string)
    ensures ReadTokens([Open, Str(n), Colon, Null, Close]) == Some(map[n := map[]])
  {
    var tokens := [Open, Str(n), Colon, Null, Close];
    assert tokens[1..] == [Str(n), Colon, Null, Close] && tokens[1..][2..] == [Null, Close];
    assert [Null, Close][1..] == [Close] && [Close][1..] == [];
    var none: Data := map[];
    assert none[n := map[]] == map[n := map[]];
  }

  /** A word that is null is empty, and of two words for a key the last one counts. */
  lemma ReadPairsOfKey(k: string, v: string)
    ensures ReadPairs([Str(k), Colon, Null, Close], map[]) == Some((map[k := ""], []))
    ensures ReadPairs([Str(k), Colon, Null, Comma, Str(k), Colon, Str(v), Close], map[]) == Some((map[k := v], []))
  {
    var two := [Str(k), Colon, Null, Comma, Str(k), Colon, Str(v), Close];
    assert two[4..] == [Str(k), Colon, Str(v), Close] && two[4..][4..] == [] && [Str(k), Colon, Null, Close][4..] == [];
    var none: Words := map[];
    assert none[k := ""] == map[k := ""] && none[k := ""][k := v] == map[k := v];
  }

  // ---------- The tokens of a written text ----------

  predicate IsBlank(s: string) {
    s == "" || (IsSpace(s[0]) && IsBlank(s[1..]))
  }

  lemma {:induction false} BlankConcat(s: string, t: string)
    requires IsBlank(s) && IsBlank(t)
    ensures IsBlank(s + t)
  {
    if s == "" {
      assert s + t == t;
    } else {
      BlankConcat(s[1..], t);
      assert (s + t)[1..] == s[1..] + t;
    }
  }

  lemma {:induction false} IndentIsBlank(depth: nat)
    ensures IsBlank(Indent(depth))
  {
    if depth == 0 {
      assert "\n"[1..] == "";
    } else {
      IndentIsBlank(depth - 1);
      assert "  "[1..] == " " && " "[1..] == "";
      BlankConcat(Indent(depth - 1), "  ");
    }
  }

  lemma {:induction false} LexBlank(s: string, t: string)
    requires IsBlank(s)
    ensures Lex(s + t) == Lex(t) && '\\' !in s
  {
    if s == "" {
      assert s + t == t;
    } else {
      LexBlank(s[1..], t);
      assert (s + t)[1..] == s[1..] + t && s == [s[0]] + s[1..];
    }
  }

  predicate IsPiece(piece: Piece) {
    piece.Punct? ==> IsBlank(piece.before) && IsBlank(piece.after) && Mark(MarkChar(piece.token)) == Some(piece.token)
  }

  predicate AllPieces(pieces: seq<Piece>) {
    forall i | 0 <= i < |pieces| :: IsPiece(pieces[i])
  }

  /** No string of the pieces has a backslash before `u0026`. */
  predicate Unbroken(pieces: seq<Piece>) {
    forall i | 0 <= i < |pieces| :: pieces[i].Quoted? ==> !IsBroken(pieces[i].s)
  }

  lemma LexMark(c: char, t: string)
    requires Mark(c).Some?
    ensures Lex([c] + t) == Cons(Mark(c).value, Lex(t)) && c != '\\'
  {
    assert ([c] + t)[1..] == t;
  }

  lemma UnescapePunct(piece: Piece, t: string)
    requires piece.Punct? && IsPiece(piece)
    ensures Unescape(PieceText(piece) + t) == PieceText(piece) + Unescape(t)
  {
    LexBlank(piece.before, "");
    LexBlank(piece.after, "");
    UnescapePlain(PieceText(piece), t);
  }

  lemma LexAround(before: string, c: char, after: string, t: string)
    requires IsBlank(before) && IsBlank(after) && Mark(c).Some?
    ensures Lex(before + ([c] + (after + t))) == Cons(Mark(c).value, Lex(t))
  {
    LexBlank(before, [c] + (after + t));
    LexMark(c, after + t);
    LexBlank(after, t);
  }

  lemma Regroup4(a: string, b: string, c: string, d: string)
    ensures (a + b + c) + d == a + (b + (c + d))
  {
  }

  lemma LexPunct(piece: Piece, t: string)
    requires piece.Punct? && IsPiece(piece)
    ensures Lex(PieceText(piece) + t) == Cons(piece.token, Lex(t))
  {
    LexAround(piece.before, MarkChar(piece.token), piece.after, t);
    Regroup4(piece.before, [MarkChar(piece.token)], piece.after, t);
  }

  lemma UnescapeQuoted(s: string, t: string)
    ensures Unescape(PieceText(Quoted(s)) + t) == ['\"'] + (Written(s) + (['\"'] + Unescape(t)))
  {
    var tail := ['\"'] + t;
    assert PieceText(Quoted(s)) + t == ['\"'] + (EscapeString(s) + tail);
    UnescapePlain(['\"'], EscapeString(s) + tail);
    UnescapeString(s, tail);
    UnescapePlain(['\"'], t);
  }

  lemma LexQuoted(s: string, t: string)
    ensures Lex(['\"'] + (Written(s) + (['\"'] + t))) == if IsBroken(s) then None else Cons(Str(s), Lex(t))
  {
    ReadWritten(s, t);
    LexString(Written(s) + (['\"'] + t));
  }

  lemma LexString(t: string)
    ensures Lex(['\"'] + t) == match ReadString(t) case None => None case Some((s, rest)) => Cons(Str(s), Lex(rest))
  {
    assert (['\"'] + t)[1..] == t;
  }

  /** The text of the pieces, and blanks after it, has their tokens after the replacement, or none if a string is broken. */
  predicate LexesBack(pieces: seq<Piece>, t: string) {
    Lex(Unescape(Text(pieces)) + t) == if Unbroken(pieces) then Some(Tokens(pieces)) else None
  }

  lemma PunctLexesBack(pieces: seq<Piece>, t: string)
    requires pieces != [] && AllPieces(pieces) && pieces[0].Punct? && LexesBack(pieces[1..], t)
    ensures LexesBack(pieces, t)
  {
    var piece, rest := pieces[0], Text(pieces[1..]);
    TokensSplit(pieces);
    UnescapePunct(piece, rest);
    LexPunct(piece, Unescape(rest) + t);
    Regroup3(PieceText(piece), Unescape(rest), t);
  }

  lemma QuotedLexesBack(pieces: seq<Piece>, t: string)
    requires pieces != [] && AllPieces(pieces) && pieces[0].Quoted? && LexesBack(pieces[1..], t)
    ensures LexesBack(pieces, t)
  {
    var s, rest := pieces[0].s, Text(pieces[1..]);
    TokensSplit(pieces);
    UnescapeQuoted(s, rest);
    LexQuoted(s, Unescape(rest) + t);
    Regroup5(['\"'], Written(s), ['\"'], Unescape(rest), t);
  }

  lemma {:induction false} LexText(pieces: seq<Piece>, t: string)
    requires AllPieces(pieces) && Lex(t) == Some([])
    ensures LexesBack(pieces, t)
  {
    if pieces == [] {
      assert Unescape(Text(pieces)) + t == t && Tokens(pieces) == [];
    } else {
      TokensSplit(pieces);
      LexText(pieces[1..], t);
      if pieces[0].Punct? {
        PunctLexesBack(pieces, t);
      } else {
        QuotedLexesBack(pieces, t);
      }
    }
  }

  lemma Regroup3(a: string, b: string, c: string)
    ensures a + b + c == a + (b + c)
  {
  }

  lemma Regroup5(a: string, b: string, c: string, d: string, e: string)
    ensures a + (b + (c + d)) + e == a + (b + (c + (d + e)))
  {
  }

  lemma TokensSplit(pieces: seq<Piece>)
    requires pieces != [] && AllPieces(pieces)
    ensures Tokens(pieces) == [PieceToken(pieces[0])] + Tokens(pieces[1..]) && AllPieces(pieces[1..])
    ensures Unbroken(pieces) <==> (pieces[0].Quoted? ==> !IsBroken(pieces[0].s)) && Unbroken(pieces[1..])
  {
    assert forall i | 0 < i < |pieces| :: pieces[i] == pieces[1..][i - 1];
    assert forall i | 0 <= i < |pieces[1..]| :: pieces[1..][i] == pieces[i + 1];
  }

  lemma TokensConcat(a: seq<Piece>, b: seq<Piece>)
    ensures Tokens(a + b) == Tokens(a) + Tokens(b)
    ensures AllPieces(a + b) <==> AllPieces(a) && AllPieces(b)
    ensures Unbroken(a + b) <==> Unbroken(a) && Unbroken(b)
  {
    assert forall i | 0 <= i < |a| :: (a + b)[i] == a[i];
    assert forall i | 0 <= i < |b| :: (a + b)[|a| + i] == b[i];
  }

  // ---------- Reading what was written ----------

  /** The words with those of some keys added. */
  function Added(acc: Words, words: Words, keys: seq<string>): Words
    requires forall k | k in keys :: k in words
  {
    acc + map k | k in keys :: words[k]
  }

  lemma AddedFirst(acc: Words, words: Words, keys: seq<string>)
    requires keys != [] && forall k | k in keys :: k in words
    ensures Added(acc[keys[0] := words[keys[0]]], words, keys[1..]) == Added(acc, words, keys)
  {
    assert forall k :: k in keys <==> k == keys[0] || k in keys[1..];
  }

  lemma PairTokens(words: Words, key: string, rest: seq<Token>)
    requires key in words
    ensures var t := Tokens(Pair(words, key)) + rest;
            |t| >= 3 && t[0] == Str(key) && t[1] == Colon && t[2] == Str(words[key]) && t[3..] == rest
  {
  }

  lemma ReadPair(words: Words, key: string, mark: Token, rest: seq<Token>, acc: Words)
    requires key in words && (mark == Comma || mark == Close)
    ensures var more := acc[key := words[key]];
            ReadPairs(Tokens(Pair(words, key)) + ([mark] + rest), acc)
            == if mark == Comma then ReadPairs(rest, more) else Some((more, rest))
  {
    var t := Tokens(Pair(words, key)) + ([mark] + rest);
    PairTokens(words, key, [mark] + rest);
    assert t[3] == t[3..][0] && t[4..] == t[3..][1..] == rest;
  }

  lemma {:induction false} PairsRead(words: Words, keys: seq<string>, rest: seq<Token>, acc: Words)
    requires keys != [] && forall k | k in keys :: k in words
    ensures ReadPairs(Tokens(Pairs(words, keys)) + ([Close] + rest), acc) == Some((Added(acc, words, keys), rest))
    decreases |keys|
  {
    var first, more := Pair(words, keys[0]), acc[keys[0] := words[keys[0]]];
    AddedFirst(acc, words, keys);
    if |keys| == 1 {
      ReadPair(words, keys[0], Close, rest, acc);
      assert Added(more, words, keys[1..]) == more;
    } else {
      var others := Pairs(words, keys[1..]);
      PairsRead(words, keys[1..], rest, more);
      ReadPair(words, keys[0], Comma, Tokens(others) + ([Close] + rest), acc);
      PairsTokens(words, keys);
      RegroupTokens(Tokens(first), [Comma], Tokens(others), [Close] + rest);
    }
  }

  lemma PairsTokens(words: Words, keys: seq<string>)
    requires |keys| > 1 && forall k | k in keys :: k in words
    ensures Tokens(Pairs(words, keys)) == Tokens(Pair(words, keys[0])) + [Comma] + Tokens(Pairs(words, keys[1..]))
  {
    var comma := [Punct(Comma, "", Indent(2))];
    TokensConcat(Pair(words, keys[0]) + comma, Pairs(words, keys[1..]));
    TokensConcat(Pair(words, keys[0]), comma);
    assert Tokens(comma) == [Comma];
  }

  lemma RegroupTokens(a: seq<Token>, b: seq<Token>, c: seq<Token>, d: seq<Token>)
    ensures (a + b + c) + d == a + (b + (c + d))
  {
  }

  lemma AddedIsAll(words: Words, keys: seq<string>)
    requires forall k :: k in keys <==> k in words
    ensures Added(map[], words, keys) == words
  {
  }

  lemma WordsTokens(words: Words, keys: seq<string>)
    requires keys != [] && forall k | k in keys :: k in words
    ensures Tokens(WordsPieces(words, keys)) == [Open] + (Tokens(Pairs(words, keys)) + [Close])
  {
    var open, pairs, close := [Punct(Open, "", Indent(2))], Pairs(words, keys), [Punct(Close, Indent(1), "")];
    TokensConcat(open + pairs, close);
    TokensConcat(open, pairs);
    assert Tokens(open) == [Open] && Tokens(close) == [Close];
  }

  lemma FirstPair(words: Words, keys: seq<string>)
    requires keys != [] && forall k | k in keys :: k in words
    ensures Tokens(Pairs(words, keys)) != [] && Tokens(Pairs(words, keys))[0] == Str(keys[0])
  {
  }

  lemma ReadOpen(tail: seq<Token>)
    requires tail != [] && tail[0] != Close
    ensures ReadWords([Open] + tail) == ReadPairs(tail, map[])
  {
    var t := [Open] + tail;
    assert t[1..] == tail && t[1] == tail[0];
  }

  lemma ReadObject(pairs: seq<Token>, rest: seq<Token>)
    requires pairs != [] && pairs[0] != Close
    ensures ReadWords([Open] + (pairs + [Close]) + rest) == ReadPairs(pairs + ([Close] + rest), map[])
  {
    ReadOpen(pairs + ([Close] + rest));
    RegroupEnclosed([Open], pairs, [Close], rest);
  }

  lemma RegroupEnclosed(a: seq<Token>, b: seq<Token>, c: seq<Token>, d: seq<Token>)
    ensures a + (b + c) + d == a + (b + (c + d))
  {
  }

  lemma WordsRead(words: Words, keys: seq<string>, rest: seq<Token>)
    requires forall k :: k in keys <==> k in words
    ensures ReadWords(Tokens(WordsPieces(words, keys)) + rest) == Some((words, rest))
  {
    if keys == [] {
      var t := Tokens(WordsPieces(words, keys)) + rest;
      assert t == [Open, Close] + rest && t[2..] == rest && words == map[];
    } else {
      WordsTokens(words, keys);
      FirstPair(words, keys);
      AddedIsAll(words, keys);
      PairsRead(words, keys, rest, map[]);
      ReadObject(Tokens(Pairs(words, keys)), rest);
    }
  }

  /** The pieces stand for the words: as tokens they are read as them, and they are unbroken if the words are clean. */
  ghost predicate StandFor(pieces: seq<Piece>, words: Words) {
    && AllPieces(pieces) && (Unbroken(pieces) <==> CleanWords(words))
    && forall rest :: ReadWords(Tokens(pieces) + rest) == Some((words, rest))
  }

  ghost predicate AllStandFor(inner: map<string, seq<Piece>>, data: Data) {
    forall n | n in data :: n in inner && StandFor(inner[n], data[n])
  }

  function AddedData(acc: Data, data: Data, keys: seq<string>): Data
    requires forall k | k in keys :: k in data
  {
    acc + map k | k in keys :: data[k]
  }

  lemma AddedDataFirst(acc: Data, data: Data, keys: seq<string>)
    requires keys != [] && forall k | k in keys :: k in data
    ensures AddedData(acc[keys[0] := data[keys[0]]], data, keys[1..]) == AddedData(acc, data, keys)
  {
    assert forall k :: k in keys <==> k == keys[0] || k in keys[1..];
  }

  lemma ReadNamespace(key: string, pieces: seq<Piece>, words: Words, mark: Token, rest: seq<Token>, acc: Data)
    requires (mark == Comma || mark == Close) && StandFor(pieces, words)
    ensures var more := acc[key := words];
            ReadNamespaces([Str(key), Colon] + (Tokens(pieces) + ([mark] + rest)), acc)
            == if mark == Comma then ReadNamespaces(rest, more) else Some((more, rest))
  {
    var tail := Tokens(pieces) + ([mark] + rest);
    var t := [Str(key), Colon] + tail;
    assert ReadWords(tail) == Some((words, [mark] + rest));
    assert t[2..] == tail && ([mark] + rest)[1..] == rest;
  }

  lemma NamespaceTokens(inner: map<string, seq<Piece>>, keys: seq<string>)
    requires keys != [] && forall k | k in keys :: k in inner
    ensures Tokens(NamespacePieces(inner, keys))
         == [Str(keys[0]), Colon] + Tokens(inner[keys[0]])
            + (if |keys| == 1 then [] else [Comma] + Tokens(NamespacePieces(inner, keys[1..])))
  {
    var head, words := [Quoted(keys[0]), Punct(Colon, "", " ")], inner[keys[0]];
    var comma, others := [Punct(Comma, "", Indent(1))], NamespacePieces(inner, keys[1..]);
    TokensConcat(head + words, if |keys| == 1 then [] else comma + others);
    TokensConcat(head, words);
    TokensConcat(comma, others);
    assert Tokens(head) == [Str(keys[0]), Colon] && Tokens(comma) == [Comma];
  }

  lemma LastNamespace(inner: map<string, seq<Piece>>, data: Data, key: string, rest: seq<Token>, acc: Data)
    requires key in data && AllStandFor(inner, data)
    ensures ReadNamespaces(Tokens(NamespacePieces(inner, [key])) + ([Close] + rest), acc)
         == Some((acc[key := data[key]], rest))
  {
    var head, body := [Str(key), Colon], Tokens(inner[key]);
    NamespaceTokens(inner, [key]);
    ReadNamespace(key, inner[key], data[key], Close, rest, acc);
    RegroupTokens(head, body, [], [Close] + rest);
    assert [] + ([Close] + rest) == [Close] + rest;
  }

  lemma FirstNamespace(inner: map<string, seq<Piece>>, data: Data, keys: seq<string>, rest: seq<Token>, acc: Data)
    requires |keys| > 1 && (forall k | k in keys :: k in data) && AllStandFor(inner, data)
    ensures ReadNamespaces(Tokens(NamespacePieces(inner, keys)) + rest, acc)
         == ReadNamespaces(Tokens(NamespacePieces(inner, keys[1..])) + rest, acc[keys[0] := data[keys[0]]])
  {
    var head, body := [Str(keys[0]), Colon], Tokens(inner[keys[0]]);
    var others := Tokens(NamespacePieces(inner, keys[1..]));
    NamespaceTokens(inner, keys);
    ReadNamespace(keys[0], inner[keys[0]], data[keys[0]], Comma, others + rest, acc);
    RegroupTokens(head, body, [Comma] + others, rest);
    RegroupComma([Comma], others, rest);
  }

  lemma RegroupComma(a: seq<Token>, b: seq<Token>, c: seq<Token>)
    ensures a + b + c == a + (b + c)
  {
  }

  lemma {:induction false} NamespacesRead(inner: map<string, seq<Piece>>, data: Data, keys: seq<string>,
                                          rest: seq<Token>, acc: Data)
    requires keys != [] && (forall k | k in keys :: k in data) && AllStandFor(inner, data)
    ensures ReadNamespaces(Tokens(NamespacePieces(inner, keys)) + ([Close] + rest), acc)
         == Some((AddedData(acc, data, keys), rest))
    decreases |keys|
  {
    var more := acc[keys[0] := data[keys[0]]];
    AddedDataFirst(acc, data, keys);
    if |keys| == 1 {
      assert keys == [keys[0]] && AddedData(more, data, keys[1..]) == more;
      LastNamespace(inner, data, keys[0], rest, acc);
    } else {
      FirstNamespace(inner, data, keys, [Close] + rest, acc);
      NamespacesRead(inner, data, keys[1..], rest, more);
    }
  }

  lemma ObjectTokens(inner: map<string, seq<Piece>>, keys: seq<string>)
    requires keys != [] && forall k | k in keys :: k in inner
    ensures Tokens(ObjectPieces(inner, keys)) == [Open] + (Tokens(NamespacePieces(inner, keys)) + [Close])
  {
    var open, close := [Punct(Open, "", Indent(1))], [Punct(Close, Indent(0), "")];
    var namespaces := NamespacePieces(inner, keys);
    TokensConcat(open + namespaces, close);
    TokensConcat(open, namespaces);
    assert Tokens(open) == [Open] && Tokens(close) == [Close];
  }

  lemma ReadOuter(tokens: seq<Token>, data: Data)
    requires tokens != [] && ReadNamespaces(tokens + [Close], map[]) == Some((data, []))
    ensures ReadTokens([Open] + (tokens + [Close])) == Some(data)
  {
    var t := [Open] + (tokens + [Close]);
    assert t[1..] == tokens + [Close];
  }

  lemma FilledRead(inner: map<string, seq<Piece>>, data: Data, keys: seq<string>)
    requires keys != [] && (forall k :: k in keys <==> k in data) && AllStandFor(inner, data)
    ensures Tokens(NamespacePieces(inner, keys)) != []
    ensures ReadNamespaces(Tokens(NamespacePieces(inner, keys)) + [Close], map[]) == Some((data, []))
  {
    SomeNamespace(inner, keys);
    AddedDataIsAll(data, keys);
    NamespacesRead(inner, data, keys, [], map[]);
    assert [Close] + [] == [Close];
  }

  lemma SomeNamespace(inner: map<string, seq<Piece>>, keys: seq<string>)
    requires keys != [] && forall k | k in keys :: k in inner
    ensures Tokens(NamespacePieces(inner, keys)) != []
  {
    NamespaceTokens(inner, keys);
  }

  lemma AddedDataIsAll(data: Data, keys: seq<string>)
    requires forall k :: k in keys <==> k in data
    ensures AddedData(map[], data, keys) == data
  {
  }

  lemma ObjectRead(inner: map<string, seq<Piece>>, data: Data, keys: seq<string>)
    requires (forall k :: k in keys <==> k in data) && AllStandFor(inner, data)
    ensures ReadTokens(Tokens(ObjectPieces(inner, keys))) == Some(data)
  {
    if keys == [] {
      assert Tokens(ObjectPieces(inner, keys)) == [Open, Close] && data == map[];
    } else {
      ObjectTokens(inner, keys);
      FilledRead(inner, data, keys);
      ReadOuter(Tokens(NamespacePieces(inner, keys)), data);
    }
  }

  // ---------- Exactly what can be read back ----------

  predicate CleanPairs(words: Words, keys: seq<string>)
    requires forall k | k in keys :: k in words
  {
    forall k | k in keys :: !IsBroken(k) && !IsBroken(words[k])
  }

  predicate CleanWords(words: Words) {
    forall k | k in words :: !IsBroken(k) && !IsBroken(words[k])
  }

  /** No namespace, key or word has a backslash directly before `u0026`. */
  predicate IsClean(data: Data) {
    forall n | n in data :: !IsBroken(n) && CleanWords(data[n])
  }

  lemma Punctuation()
    ensures forall d: nat :: IsPiece(Punct(Open, "", Indent(d))) && IsPiece(Punct(Comma, "", Indent(d)))
                             && IsPiece(Punct(Close, Indent(d), ""))
    ensures IsPiece(Punct(Open, "", "")) && IsPiece(Punct(Close, "", "")) && IsPiece(Punct(Colon, "", " "))
  {
    assert " "[1..] == "";
    forall d: nat
      ensures IsBlank(Indent(d))
    {
      IndentIsBlank(d);
    }
  }

  lemma PairUnbroken(words: Words, key: string)
    requires key in words
    ensures AllPieces(Pair(words, key)) && (Unbroken(Pair(words, key)) <==> !IsBroken(key) && !IsBroken(words[key]))
  {
    Punctuation();
    var p := Pair(words, key);
    assert p[0] == Quoted(key) && p[2] == Quoted(words[key]);
  }

  lemma PunctUnbroken(piece: Piece)
    requires IsPiece(piece) && piece.Punct?
    ensures AllPieces([piece]) && Unbroken([piece])
  {
  }

  lemma CleanFirst(words: Words, keys: seq<string>)
    requires keys != [] && forall k | k in keys :: k in words
    ensures CleanPairs(words, keys) <==>
            !IsBroken(keys[0]) && !IsBroken(words[keys[0]]) && CleanPairs(words, keys[1..])
  {
    assert forall k :: k in keys <==> k == keys[0] || k in keys[1..];
  }

  lemma {:induction false} PairsUnbroken(words: Words, keys: seq<string>)
    requires forall k | k in keys :: k in words
    ensures AllPieces(Pairs(words, keys)) && (Unbroken(Pairs(words, keys)) <==> CleanPairs(words, keys))
  {
    if keys != [] {
      var first, comma, others := Pair(words, keys[0]), [Punct(Comma, "", Indent(2))], Pairs(words, keys[1..]);
      Punctuation();
      PunctUnbroken(comma[0]);
      PairsUnbroken(words, keys[1..]);
      PairUnbroken(words, keys[0]);
      CleanFirst(words, keys);
      TokensConcat(first + comma, others);
      TokensConcat(first, comma);
    }
  }

  lemma WordsUnbroken(words: Words, keys: seq<string>)
    requires forall k :: k in keys <==> k in words
    ensures AllPieces(WordsPieces(words, keys)) && (Unbroken(WordsPieces(words, keys)) <==> CleanWords(words))
  {
    Punctuation();
    if keys != [] {
      var open, pairs, close := [Punct(Open, "", Indent(2))], Pairs(words, keys), [Punct(Close, Indent(1), "")];
      PunctUnbroken(open[0]);
      PunctUnbroken(close[0]);
      PairsUnbroken(words, keys);
      TokensConcat(open + pairs, close);
      TokensConcat(open, pairs);
    }
  }

  lemma InnerStandsFor(data: Data)
    ensures AllStandFor(Inner(data), data)
  {
    forall n | n in data
      ensures StandFor(Inner(data)[n], data[n])
    {
      var keys := SortedKeys(data[n].Keys);
      WordsUnbroken(data[n], keys);
      forall rest
        ensures ReadWords(Tokens(Inner(data)[n]) + rest) == Some((data[n], rest))
      {
        WordsRead(data[n], keys, rest);
      }
    }
  }

  predicate CleanNamespaces(data: Data, keys: seq<string>)
    requires forall k | k in keys :: k in data
  {
    forall n | n in keys :: !IsBroken(n) && CleanWords(data[n])
  }

  lemma CleanFirstNamespace(data: Data, keys: seq<string>)
    requires keys != [] && forall k | k in keys :: k in data
    ensures CleanNamespaces(data, keys) <==>
            !IsBroken(keys[0]) && CleanWords(data[keys[0]]) && CleanNamespaces(data, keys[1..])
  {
    assert forall k :: k in keys <==> k == keys[0] || k in keys[1..];
  }

  lemma HeadUnbroken(key: string)
    ensures AllPieces([Quoted(key), Punct(Colon, "", " ")])
    ensures Unbroken([Quoted(key), Punct(Colon, "", " ")]) <==> !IsBroken(key)
  {
    Punctuation();
    var head := [Quoted(key), Punct(Colon, "", " ")];
    assert head[0] == Quoted(key);
  }

  lemma {:induction false} NamespacesUnbroken(inner: map<string, seq<Piece>>, data: Data, keys: seq<string>)
    requires (forall k | k in keys :: k in data) && AllStandFor(inner, data)
    ensures AllPieces(NamespacePieces(inner, keys))
    ensures Unbroken(NamespacePieces(inner, keys)) <==> CleanNamespaces(data, keys)
    decreases |keys|
  {
    if keys != [] {
      var head, words := [Quoted(keys[0]), Punct(Colon, "", " ")], inner[keys[0]];
      var comma, others := [Punct(Comma, "", Indent(1))], NamespacePieces(inner, keys[1..]);
      Punctuation();
      PunctUnbroken(comma[0]);
      HeadUnbroken(keys[0]);
      NamespacesUnbroken(inner, data, keys[1..]);
      CleanFirstNamespace(data, keys);
      TokensConcat(head, words);
      TokensConcat(comma, others);
      TokensConcat(head + words, if |keys| == 1 then [] else comma + others);
    }
  }

  lemma ObjectUnbroken(inner: map<string, seq<Piece>>, data: Data, keys: seq<string>)
    requires (forall k :: k in keys <==> k in data) && AllStandFor(inner, data)
    ensures AllPieces(ObjectPieces(inner, keys)) && (Unbroken(ObjectPieces(inner, keys)) <==> IsClean(data))
  {
    Punctuation();
    if keys != [] {
      var open, close := [Punct(Open, "", Indent(1))], [Punct(Close, Indent(0), "")];
      PunctUnbroken(open[0]);
      PunctUnbroken(close[0]);
      NamespacesUnbroken(inner, data, keys);
      TokensConcat(open + NamespacePieces(inner, keys), close);
      TokensConcat(open, NamespacePieces(inner, keys));
    }
  }

  lemma LexLineFeed()
    ensures Lex("\n") == Some([])
  {
    assert "\n"[1..] == "";
  }

  /** A written file is read back as the data it was written from if no string in it is broken, and not at all otherwise. */
  lemma ReadBack(data: Data)
    ensures ReadText(WriteText(data)) == if IsClean(data) then Some(data) else None
  {
    InnerStandsFor(data);
    ObjectUnbroken(Inner(data), data, SortedKeys(data.Keys));
    ObjectRead(Inner(data), data, SortedKeys(data.Keys));
    LexLineFeed();
    LexText(DataPieces(data), "\n");
  }

  /** So a file with the word `\u0026`, spelled out, cannot be read again. */
  lemma SpelledOutIsLost(namespace: string, key: string)
    ensures ReadText(WriteText(map[namespace := map[key := AMPERSAND]])) == None
  {
    var data := map[namespace := map[key := AMPERSAND]];
    assert namespace in data && key in data[namespace] && IsBroken(data[namespace][key]);
    ReadBack(data);
  }
}
