/**
  Django's password format, `pbkdf2_sha256$iterations$salt$hash`: writing and checking.  The key
  derivation is a parameter; Base64 (section 4 of RFC 4648) is written out.
 */
module DjangoPassword {
  import opened Wrappers
  import opened Splitting
  import opened Decimal

  type byte = x: int | 0 <= x < 0x100

  // ---------- Base64 ----------

  function SextetChar(n: nat): (c: char)
    requires n < 64
    ensures c != '=' && c != '$'
  {
    if n < 26 then 'A' + n as char
    else if n < 52 then 'a' + (n - 26) as char
    else if n < 62 then '0' + (n - 52) as char
    else if n == 62 then '+' else '/'
  }

  /** The first group of four characters. */
  function FirstGroup(b: seq<byte>): (g: string)
    requires b != []
    ensures |g| == 4
  {
    var b1 := if |b| > 1 then b[1] else 0;
    var b2 := if |b| > 2 then b[2] else 0;
    [SextetChar(b[0] / 4), SextetChar((b[0] as int) % 4 * 16 + b1 / 16),
     if |b| > 1 then SextetChar((b1 as int) % 16 * 4 + b2 / 64) else '=',
     if |b| > 2 then SextetChar(b2 % 64) else '=']
  }

  /** The bytes after the first group. */
  function Rest(b: seq<byte>): seq<byte> {
    if |b| <= 3 then [] else b[3..]
  }

  function Base64(b: seq<byte>): (t: string)
    ensures |t| == (|b| + 2) / 3 * 4
    decreases |b|
  {
    if b == [] then "" else FirstGroup(b) + Base64(Rest(b))
  }

  /** The 64 characters in the order of their values. */
  const ALPHABET := "ABCDEFGHIJKLMNOPQRSTUVWXYZ" + "abcdefghijklmnopqrstuvwxyz" + "0123456789+/"

  lemma CodeOf(n: nat)
    requires n < 64
    ensures |ALPHABET| == 64
    ensures ALPHABET[n] as int
         == if n < 26 then n + 65 else if n < 52 then n + 71 else if n < 62 then n - 4 else if n == 62 then 43 else 47
  {
    var upper, lower, rest := "ABCDEFGHIJKLMNOPQRSTUVWXYZ", "abcdefghijklmnopqrstuvwxyz", "0123456789+/";
    assert n < 26 ==> ALPHABET[n] == upper[n];
    assert 26 <= n < 52 ==> ALPHABET[n] == lower[n - 26];
    assert 52 <= n ==> ALPHABET[n] == rest[n - 52];
  }

  lemma SextetIsInAlphabet(n: nat)
    requires n < 64
    ensures |ALPHABET| == 64 && SextetChar(n) == ALPHABET[n]
  {
    CodeOf(n);
    assert SextetChar(n) as int == ALPHABET[n] as int;
  }

  /** The place of a character in a text, or 0: padding counts as 0. */
  function PlaceIn(text: string, c: char): (i: nat)
    ensures text != "" ==> i < |text|
  {
    if text == "" || text[|text| - 1] == c then if text == "" then 0 else |text| - 1
    else PlaceIn(text[..|text| - 1], c)
  }

  lemma {:induction false} PlaceOfDistinct(text: string, i: nat)
    requires i < |text| && forall j, k | 0 <= j < k < |text| :: text[j] != text[k]
    ensures PlaceIn(text, text[i]) == i
  {
    if i < |text| - 1 {
      PlaceOfDistinct(text[..|text| - 1], i);
    }
  }

  lemma {:induction false} PlaceOfStranger(text: string, c: char)
    requires c !in text
    ensures PlaceIn(text, c) == 0
  {
    if text != "" {
      PlaceOfStranger(text[..|text| - 1], c);
    }
  }

  /** The number that four characters spell: six bits each, the highest first. */
  function Bits24(g: string): int
    requires |g| == 4
  {
    PlaceIn(ALPHABET, g[0]) * 0x4_0000 + PlaceIn(ALPHABET, g[1]) * 0x1000 + PlaceIn(ALPHABET, g[2]) * 0x40 + PlaceIn(ALPHABET, g[3])
  }

  lemma SextetPlace(n: nat)
    requires n < 64
    ensures PlaceIn(ALPHABET, SextetChar(n)) == n && PlaceIn(ALPHABET, '=') == 0
  {
    forall j, k | 0 <= j < k < |ALPHABET|
      ensures ALPHABET[j] != ALPHABET[k]
    {
      CodeOf(j);
      CodeOf(k);
    }
    forall j | 0 <= j < |ALPHABET|
      ensures ALPHABET[j] != '='
    {
      CodeOf(j);
    }
    SextetIsInAlphabet(n);
    PlaceOfDistinct(ALPHABET, n);
    PlaceOfStranger(ALPHABET, '=');
  }

  function ByteAt(b: seq<byte>, i: nat): int {
    if i < |b| then b[i] else 0
  }

  /** Six bits each of four numbers are eight bits each of three. */
  lemma SixBitsEach(x: int, y: int, z: int) returns (p: nat, q: nat, r: nat, t: nat)
    requires 0 <= x < 0x100 && 0 <= y < 0x100 && 0 <= z < 0x100
    ensures p == x / 4 && q == x % 4 * 16 + y / 16 && r == y % 16 * 4 + z / 64 && t == z % 64
    ensures p < 64 && q < 64 && r < 64 && t < 64 && (y == z == 0 ==> r == 0) && (z == 0 ==> t == 0)
    ensures p * 0x4_0000 + q * 0x1000 + r * 0x40 + t == x * 0x1_0000 + y * 0x100 + z
  {
    p, q, r, t := x / 4, x % 4 * 16 + y / 16, y % 16 * 4 + z / 64, z % 64;
  }

  /** The characters of a group: the sextets of three bytes, or padding. */
  lemma GroupSextets(b: seq<byte>) returns (p: nat, q: nat, r: nat, t: nat)
    requires b != []
    ensures p < 64 && q < 64 && r < 64 && t < 64 && (|b| <= 1 ==> r == 0) && (|b| <= 2 ==> t == 0)
    ensures p * 0x4_0000 + q * 0x1000 + r * 0x40 + t == ByteAt(b, 0) * 0x1_0000 + ByteAt(b, 1) * 0x100 + ByteAt(b, 2)
    ensures var g := FirstGroup(b);
            && g[0] == SextetChar(p) && g[1] == SextetChar(q)
            && g[2] == (if |b| > 1 then SextetChar(r) else '=') && g[3] == if |b| > 2 then SextetChar(t) else '='
  {
    p, q, r, t := SixBitsEach(ByteAt(b, 0), ByteAt(b, 1), ByteAt(b, 2));
  }

  /**
    The 24 bits of a group are its bytes, the first one highest; one or two equals signs at its end stand for
    the bytes that are missing.
   */
  lemma GroupBits(b: seq<byte>)
    requires b != []
    ensures Bits24(FirstGroup(b)) == ByteAt(b, 0) * 0x1_0000 + ByteAt(b, 1) * 0x100 + ByteAt(b, 2)
    ensures var g := FirstGroup(b); g[0] != '=' && g[1] != '=' && (g[2] == '=' <==> |b| == 1) && (g[3] == '=' <==> |b| <= 2)
  {
    var p, q, r, t := GroupSextets(b);
    SextetPlace(p);
    SextetPlace(q);
    SextetPlace(r);
    SextetPlace(t);
  }

  /** The bytes of a group of four characters. */
  function DecodeGroup(g: string): seq<int>
    requires |g| == 4
  {
    var bytes := [Bits24(g) / 0x1_0000, Bits24(g) / 0x100 % 0x100, Bits24(g) % 0x100];
    if g[2] == '=' then bytes[..1] else if g[3] == '=' then bytes[..2] else bytes
  }

  /** Reads a text group by group, as section 4 of RFC 4648 says. */
  function Decode(s: string): seq<int> {
    if |s| < 4 then [] else DecodeGroup(s[..4]) + Decode(s[4..])
  }

  lemma ThreeBytes(x: int, y: int, z: int)
    requires 0 <= x < 0x100 && 0 <= y < 0x100 && 0 <= z < 0x100
    ensures var n := x * 0x1_0000 + y * 0x100 + z; n / 0x1_0000 == x && n / 0x100 % 0x100 == y && n % 0x100 == z
  {
    var n := x * 0x1_0000 + y * 0x100 + z;
    assert n / 0x100 == x * 0x100 + y;
  }

  lemma DecodeFirst(b: seq<byte>)
    requires b != []
    ensures DecodeGroup(FirstGroup(b)) == if |b| <= 3 then b else b[..3]
  {
    var x, y, z := ByteAt(b, 0), ByteAt(b, 1), ByteAt(b, 2);
    GroupBits(b);
    ThreeBytes(x, y, z);
    var bytes := [x, y, z];
    assert DecodeGroup(FirstGroup(b)) == if |b| == 1 then bytes[..1] else if |b| == 2 then bytes[..2] else bytes;
  }

  /** Decoding gives back every byte sequence. */
  lemma {:induction false} DecodeBase64(b: seq<byte>)
    ensures Decode(Base64(b)) == b
    decreases |b|
  {
    if b != [] {
      DecodeBase64(Rest(b));
      DecodeFirst(b);
      var g, s := FirstGroup(b), Base64(b);
      assert s[..4] == g && s[4..] == Base64(Rest(b));
    }
  }

  lemma {:induction false} Base64HasNoDollar(b: seq<byte>)
    ensures '$' !in Base64(b)
    decreases |b|
  {
    if b != [] {
      Base64HasNoDollar(Rest(b));
    }
  }

  lemma Base64Injective(a: seq<byte>, b: seq<byte>)
    requires Base64(a) == Base64(b)
    ensures a == b
  {
    DecodeBase64(a);
    DecodeBase64(b);
  }

  // ---------- Writing and checking a password ----------

  /** Derives a key from a password, a salt and a number of iterations. */
  type Derivation = (string, string, int) -> seq<byte>

  const ALGORITHM := "pbkdf2_sha256"

  const ITERATIONS := 260000

  function Format(iterations: string, salt: string, hash: string): string {
    ALGORITHM + "$" + (iterations + "$" + (salt + "$" + hash))
  }

  function GetHashedPassword(derive: Derivation, password: string, salt: string): string {
    Format(Itoa(ITERATIONS), salt, Base64(derive(password, salt, ITERATIONS)))
  }

  predicate IsPasswordCorrect(derive: Derivation, password: string, passwordHash: string) {
    var parts := Split(passwordHash, '$');
    |parts| == 4 && parts[0] == ALGORITHM &&
    match Atoi(parts[1])
    case None => false
    case Some(iterations) => Base64(derive(password, parts[2], iterations)) == parts[3]
  }

  /** A stored password in full: Django's name of the algorithm, the iterations, the salt, and the key in Base64. */
  lemma HashedText(derive: Derivation, password: string, salt: string)
    ensures GetHashedPassword(derive, password, salt) == "pbkdf2_sha256$260000$" + salt + "$" + Base64(derive(password, salt, 260000))
  {
    var hash := Base64(derive(password, salt, 260000));
    assert Itoa(26) == "26" && Itoa(260) == "260" && Itoa(2600) == "2600" && Itoa(26000) == "26000" && Itoa(260000) == "260000";
    FormatText("260000", salt, hash);
    assert "pbkdf2_sha256$" + "260000" + "$" == "pbkdf2_sha256$260000$";
  }

  lemma FormatText(iterations: string, salt: string, hash: string)
    ensures Format(iterations, salt, hash) == "pbkdf2_sha256$" + iterations + "$" + salt + "$" + hash
  {
    assert ALGORITHM + "$" == "pbkdf2_sha256$";
  }

  lemma {:induction false} CountConcat(s: string, t: string, c: char)
    ensures Count(s + t, c) == Count(s, c) + Count(t, c)
  {
    if s == [] {
      assert s + t == t;
    } else {
      CountConcat(s[1..], t, c);
      assert (s + t)[1..] == s[1..] + t;
    }
  }

  lemma {:induction false} CountZero(s: string, c: char)
    ensures Count(s, c) == 0 <==> c !in s
  {
    if s != [] {
      CountZero(s[1..], c);
    }
  }

  lemma SplitTail(salt: string, hash: string)
    requires '$' !in hash
    ensures '$' !in salt ==> Split(salt + ['$'] + hash, '$') == [salt, hash]
    ensures '$' in salt ==> |Split(salt + ['$'] + hash, '$')| > 2
  {
    if '$' !in salt {
      SplitFirst(salt, hash, '$');
      SplitFirst(hash, "", '$');
    } else {
      SplitCount(salt + ['$'] + hash, '$');
      CountConcat(salt + ['$'], hash, '$');
      CountConcat(salt, ['$'], '$');
      CountZero(salt, '$');
    }
  }

  /** A formatted password has four parts exactly when none of its parts has a dollar sign. */
  lemma SplitOfFormat(iterations: string, salt: string, hash: string)
    requires '$' !in iterations && '$' !in hash
    ensures '$' !in salt ==> Split(Format(iterations, salt, hash), '$') == [ALGORITHM, iterations, salt, hash]
    ensures '$' in salt ==> |Split(Format(iterations, salt, hash), '$')| > 4
  {
    SplitTail(salt, hash);
    SplitTwo(ALGORITHM, iterations, salt + ['$'] + hash, '$');
  }

  /**
    Another password is accepted for a stored one exactly when its derived key is the same and the
    salt has no dollar sign; so the password itself is accepted exactly for salts without one.
   */
  lemma CheckOfHashed(derive: Derivation, password: string, salt: string, other: string)
    ensures IsPasswordCorrect(derive, other, GetHashedPassword(derive, password, salt))
            <==> '$' !in salt && derive(other, salt, ITERATIONS) == derive(password, salt, ITERATIONS)
    ensures IsPasswordCorrect(derive, password, GetHashedPassword(derive, password, salt)) <==> '$' !in salt
  {
    var hash := Base64(derive(password, salt, ITERATIONS));
    DigitsOfItoa(ITERATIONS);
    AtoiOfItoa(ITERATIONS);
    Base64HasNoDollar(derive(password, salt, ITERATIONS));
    SplitOfFormat(Itoa(ITERATIONS), salt, hash);
    if Base64(derive(other, salt, ITERATIONS)) == hash {
      Base64Injective(derive(other, salt, ITERATIONS), derive(password, salt, ITERATIONS));
    }
  }

  /** What is accepted at all: exactly the texts of four parts whose last one is the Base64 text of the derived key. */
  lemma AcceptedHashes(derive: Derivation, password: string, passwordHash: string)
    ensures IsPasswordCorrect(derive, password, passwordHash) <==>
            exists iterations: string, salt: string ::
              && '$' !in iterations && '$' !in salt && Atoi(iterations).Some?
              && passwordHash == "pbkdf2_sha256$" + iterations + "$" + salt + "$"
                                 + Base64(derive(password, salt, Atoi(iterations).value))
  {
    if IsPasswordCorrect(derive, password, passwordHash) {
      var parts := Split(passwordHash, '$');
      JoinOfSplit(passwordHash, '$');
      JoinOfFour(parts, '$');
      FormatText(parts[1], parts[2], parts[3]);
    }
    if iterations: string, salt: string :|
      && '$' !in iterations && '$' !in salt && Atoi(iterations).Some?
      && passwordHash == "pbkdf2_sha256$" + iterations + "$" + salt + "$"
                         + Base64(derive(password, salt, Atoi(iterations).value))
    {
      FormatText(iterations, salt, Base64(derive(password, salt, Atoi(iterations).value)));
      Base64HasNoDollar(derive(password, salt, Atoi(iterations).value));
      SplitOfFormat(iterations, salt, Base64(derive(password, salt, Atoi(iterations).value)));
    }
  }

  lemma JoinOfFour(parts: seq<string>, sep: char)
    requires |parts| == 4
    ensures Join(parts, sep) == parts[0] + [sep] + (parts[1] + [sep] + (parts[2] + [sep] + parts[3]))
  {
    assert parts[1..][1..] == parts[2..] && parts[2..][1..] == parts[3..];
    assert Join(parts[2..], sep) == parts[2] + [sep] + parts[3];
    assert Join(parts[1..], sep) == parts[1] + [sep] + Join(parts[2..], sep);
  }
}
