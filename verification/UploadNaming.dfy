/**
  Finding a free name for an upload: the path itself, then the path with -1, -2, and so on before its
  extension.  What counts as taken is what the database finds for the key of a candidate: the names that
  the key, as a pattern, occurs in.
 */
module UploadNaming {
  import opened Decimal
  import opened LikePattern
  import opened Pigeonhole
  import opened Wrappers

  // ---------- Paths ----------

  function TrimLeft(s: string): string {
    if s != "" && s[0] == '/' then TrimLeft(s[1..]) else s
  }

  function TrimRight(s: string): string {
    if s != "" && s[|s| - 1] == '/' then TrimRight(s[..|s| - 1]) else s
  }

  /** What comes after the last slash. */
  function LastElement(s: string): (e: string)
    ensures |e| <= |s|
  {
    if s == "" || s[|s| - 1] == '/' then ""
    else
      var e := LastElement(s[..|s| - 1]);
      e + [s[|s| - 1]]
  }

  /** The last element of a path, without trailing slashes. */
  function Base(path: string): string {
    if path == "" then "."
    else if TrimRight(path) == "" then "/"
    else LastElement(TrimRight(path))
  }

  /** From the last dot of the last element on; empty if there is none. */
  function Ext(name: string): (ext: string)
    ensures |ext| <= |name|
  {
    ExtUpTo(name, |name|)
  }

  function ExtUpTo(name: string, i: nat): (ext: string)
    requires i <= |name|
    ensures |ext| <= |name|
  {
    if i == 0 || name[i - 1] == '/' then ""
    else if name[i - 1] == '.' then name[i - 1..]
    else ExtUpTo(name, i - 1)
  }

  predicate IsSuffix(t: string, s: string) {
    |t| <= |s| && t == s[|s| - |t|..]
  }

  lemma AppendToSuffix(s: string, t: string, c: char)
    requires IsSuffix(t, s)
    ensures IsSuffix(t + [c], s + [c])
  {
  }

  /** The last element is the end of the text after which there is no slash. */
  lemma {:induction false} LastElementIsSuffix(s: string)
    ensures IsSuffix(LastElement(s), s) && '/' !in LastElement(s)
  {
    if s != "" && s[|s| - 1] != '/' {
      var rest := s[..|s| - 1];
      LastElementIsSuffix(rest);
      AppendToSuffix(rest, LastElement(rest), s[|s| - 1]);
      assert s == rest + [s[|s| - 1]];
    }
  }

  /** The extension is the end of the name from its last dot on, if there is no slash after it. */
  lemma {:induction false} ExtIsSuffix(name: string, i: nat)
    requires i <= |name| && '.' !in name[i..] && '/' !in name[i..]
    ensures var ext := ExtUpTo(name, i);
            && IsSuffix(ext, name) && '/' !in ext
            && (ext != "" ==> ext[0] == '.' && '.' !in ext[1..])
  {
    if i > 0 && name[i - 1] != '/' && name[i - 1] != '.' {
      assert name[i - 1..] == [name[i - 1]] + name[i..];
      ExtIsSuffix(name, i - 1);
    } else if i > 0 && name[i - 1] == '.' {
      assert name[i - 1..] == [name[i - 1]] + name[i..];
    }
  }

  /** Joins with exactly one slash. */
  function UrlJoin(base: string, path: string): string {
    TrimRight(base) + "/" + TrimLeft(path)
  }

  // ---------- The candidates ----------

  function Extension(path: string): string {
    Ext(Base(path))
  }

  lemma BaseIsShorter(path: string)
    requires path != ""
    ensures |Extension(path)| <= |Base(path)| <= |path|
  {
    TrimRightShorter(path);
  }

  lemma {:induction false} TrimRightShorter(s: string)
    ensures |TrimRight(s)| <= |s| && TrimRight(s) == s[..|TrimRight(s)|]
    ensures forall i | |TrimRight(s)| <= i < |s| :: s[i] == '/'
    ensures TrimRight(s) != "" ==> TrimRight(s)[|TrimRight(s)| - 1] != '/'
  {
    if s != "" && s[|s| - 1] == '/' {
      TrimRightShorter(s[..|s| - 1]);
      assert s[..|s| - 1][..|TrimRight(s)|] == s[..|TrimRight(s)|];
      assert forall i | 0 <= i < |s| - 1 :: s[..|s| - 1][i] == s[i];
    } else {
      assert s[..|s|] == s;
    }
  }

  /** The path without as many characters as its extension has. */
  function Stem(path: string): string
    requires path != ""
  {
    BaseIsShorter(path);
    path[..|path| - |Extension(path)|]
  }

  function Candidate(path: string, i: nat): string
    requires path != ""
  {
    if i == 0 then path else Stem(path) + ("-" + Itoa(i)) + Extension(path)
  }

  /** An extension has a dot and no slash. */
  lemma ExtensionShape(path: string)
    ensures '/' !in Extension(path) && (Extension(path) != "" ==> Extension(path)[0] == '.')
  {
    ExtIsSuffix(Base(path), |Base(path)|);
  }

  lemma SlashIsNoExtension(path: string)
    requires path != "" && path[|path| - 1] == '/' && Extension(path) != ""
    ensures path != Stem(path) + Extension(path)
  {
    var ext, all := Extension(path), Stem(path) + Extension(path);
    ExtensionShape(path);
    assert ext[|ext| - 1] in ext && all[|all| - 1] == ext[|ext| - 1];
  }

  /** Every candidate begins with the stem. */
  lemma CandidateStem(path: string, i: nat)
    requires path != ""
    ensures |Stem(path)| <= |Candidate(path, i)| && Candidate(path, i)[..|Stem(path)|] == Stem(path)
  {
    BaseIsShorter(path);
  }

  lemma StemBeforeExtension(path: string)
    requires path != "" && IsSuffix(Extension(path), path)
    ensures path == Stem(path) + Extension(path)
  {
    BeforeSuffix(path, Extension(path));
  }

  /** The path is its stem and its extension unless it has an extension and ends in a slash. */
  lemma StemAndExtension(path: string)
    requires path != ""
    ensures path == Stem(path) + Extension(path) <==> Extension(path) == "" || path[|path| - 1] != '/'
  {
    if Extension(path) == "" {
      StemBeforeExtension(path);
    } else if path[|path| - 1] == '/' {
      SlashIsNoExtension(path);
    } else {
      ExtensionIsSuffix(path);
      StemBeforeExtension(path);
    }
  }

  lemma BeforeSuffix(s: string, t: string)
    requires IsSuffix(t, s)
    ensures s == s[..|s| - |t|] + t
  {
  }

  lemma ExtensionIsSuffix(path: string)
    requires path != "" && path[|path| - 1] != '/'
    ensures IsSuffix(Extension(path), path)
  {
    var base := Base(path);
    assert base == LastElement(path);
    LastElementIsSuffix(path);
    ExtIsSuffix(base, |base|);
    SuffixOfSuffix(path, base, Ext(base));
  }

  lemma SuffixOfSuffix(s: string, t: string, u: string)
    requires IsSuffix(t, s) && IsSuffix(u, t)
    ensures IsSuffix(u, s)
  {
  }

  // ---------- Names with a dot ----------

  lemma {:induction false} LastElementAppend(s: string, t: string)
    requires '/' !in t
    ensures LastElement(s + t) == LastElement(s) + t
  {
    if t == "" {
      assert s + t == s;
    } else {
      var front, last := t[..|t| - 1], t[|t| - 1];
      LastElementAppend(s, front);
      assert (s + t)[..|s + t| - 1] == s + front && t == front + [last];
      assert LastElement(s) + (front + [last]) == (LastElement(s) + front) + [last];
    }
  }

  lemma {:induction false} ExtUpToDot(name: string, dot: nat, i: nat)
    requires dot < i <= |name| && name[dot] == '.'
    requires forall k | dot < k < |name| :: name[k] != '.' && name[k] != '/'
    ensures ExtUpTo(name, i) == name[dot..]
  {
    if i > dot + 1 {
      ExtUpToDot(name, dot, i - 1);
    }
  }

  lemma {:induction false} ExtUpToNone(name: string, i: nat)
    requires i <= |name| && '.' !in name
    ensures ExtUpTo(name, i) == ""
  {
    if i > 0 {
      assert name[i - 1] in name;
      ExtUpToNone(name, i - 1);
    }
  }

  /** The extension of a path is what follows the last dot of its last element, with the dot. */
  lemma ExtensionAfterDot(front: string, e: string)
    requires '.' !in e && '/' !in e
    ensures Extension(front + "." + e) == "." + e
  {
    var path, t := front + "." + e, "." + e;
    assert path == front + t && path[|path| - 1] == t[|t| - 1] && t[|t| - 1] in t;
    LastElementAppend(front, t);
    var name, dot := Base(path), |LastElement(front)|;
    assert name == LastElement(front) + t && name[dot] == '.';
    forall k | dot < k < |name|
      ensures name[k] != '.' && name[k] != '/'
    {
      assert name[k] == e[k - dot - 1] && e[k - dot - 1] in e;
    }
    ExtUpToDot(name, dot, |name|);
    assert name[dot..] == t;
  }

  /** A path has an extension if and only if its last element has a dot. */
  lemma ExtensionIffDot(path: string)
    requires path != ""
    ensures Extension(path) != "" <==> '.' in Base(path)
  {
    var name := Base(path);
    if '.' in name {
      var dot := LastDot(name);
      LastElementIsSuffix(TrimRight(path));
      forall k | dot < k < |name|
        ensures name[k] != '/'
      {
        assert name[k] in name;
      }
      ExtUpToDot(name, dot, |name|);
    } else {
      ExtUpToNone(name, |name|);
    }
  }

  lemma {:induction false} LastDot(name: string) returns (dot: nat)
    requires '.' in name
    ensures dot < |name| && name[dot] == '.' && forall k | dot < k < |name| :: name[k] != '.'
  {
    if name[|name| - 1] == '.' {
      dot := |name| - 1;
    } else {
      var front := name[..|name| - 1];
      assert forall k | 0 <= k < |front| :: front[k] == name[k];
      dot := LastDot(front);
    }
  }

  /** The number of a candidate comes before the last dot: "pic.png", "pic-1.png", "pic-2.png" and so on. */
  lemma NumberBeforeDot(front: string, e: string, i: nat)
    requires '.' !in e && '/' !in e && i > 0
    ensures Candidate(front + "." + e, i) == front + "-" + Itoa(i) + "." + e
  {
    var path := front + "." + e;
    ExtensionAfterDot(front, e);
    assert path == front + ("." + e) && path[..|front|] == front;
    assert Stem(path) == front;
    assert front + ("-" + Itoa(i)) + ("." + e) == front + "-" + Itoa(i) + "." + e;
  }

  /** Without a dot in the last element it comes last. */
  lemma NumberAtEnd(path: string, i: nat)
    requires path != "" && '.' !in Base(path) && i > 0
    ensures Candidate(path, i) == path + "-" + Itoa(i)
  {
    ExtensionIffDot(path);
    assert Stem(path) == path;
    assert path + ("-" + Itoa(i)) + "" == path + "-" + Itoa(i);
  }

  // ---------- The keys of the storage provider ----------

  /** The key of a path: below the path of the provider's domain and the provider's prefix. */
  function ObjectKey(domainPath: string, pathPrefix: string, fullFilePath: string): string {
    UrlJoin(domainPath, UrlJoin(pathPrefix, fullFilePath))
  }

  lemma {:induction false} TrimLeftConcat(s: string, t: string)
    ensures TrimLeft(s) != "" || (t != "" && t[0] != '/') ==> TrimLeft(s + t) == TrimLeft(s) + t
    ensures |TrimLeft(s + t)| <= |TrimLeft(s)| + |t|
  {
    if s == "" {
      assert s + t == t;
      TrimLeftShorter(t);
    } else if s[0] == '/' {
      TrimLeftConcat(s[1..], t);
      assert (s + t)[1..] == s[1..] + t;
    }
  }

  lemma {:induction false} TrimLeftShorter(s: string)
    ensures |TrimLeft(s)| <= |s| && (TrimLeft(s) != "" ==> TrimLeft(s)[0] != '/')
    ensures s != "" && s[|s| - 1] != '/' ==> TrimLeft(s) != ""
  {
    if s != "" && s[0] == '/' {
      TrimLeftShorter(s[1..]);
    }
  }

  /** What stands before the path in its key. */
  function KeyFront(domainPath: string, pathPrefix: string): string {
    TrimRight(domainPath) + "/" + (if TrimRight(pathPrefix) == "" then "" else TrimLeft(TrimRight(pathPrefix)) + "/")
  }

  /** The key depends on the path without leading slashes, and on that injectively. */
  lemma KeyShape(domainPath: string, pathPrefix: string, fullFilePath: string)
    ensures ObjectKey(domainPath, pathPrefix, fullFilePath) == KeyFront(domainPath, pathPrefix) + TrimLeft(fullFilePath)
  {
    var b, t := TrimRight(pathPrefix), TrimLeft(fullFilePath);
    TrimLeftShorter(fullFilePath);
    TrimRightShorter(pathPrefix);
    if b == "" {
      assert b + "/" + t == "/" + t && ("/" + t)[1..] == t;
      assert TrimLeft("/" + t) == TrimLeft(t) == t;
      assert KeyFront(domainPath, pathPrefix) == TrimRight(domainPath) + "/";
    } else {
      TrimLeftShorter(b);
      TrimLeftConcat(b, "/" + t);
      assert b + "/" + t == b + ("/" + t);
      assert TrimRight(domainPath) + "/" + (TrimLeft(b) + ("/" + t)) == TrimRight(domainPath) + "/" + (TrimLeft(b) + "/") + t;
    }
  }

  /** Between domain path, prefix and file path there is one slash each, and no more. */
  lemma PlainKeyShape(domainPath: string, pathPrefix: string, fullFilePath: string)
    requires domainPath != "" && domainPath[|domainPath| - 1] != '/' && fullFilePath != "" && fullFilePath[0] != '/'
    requires pathPrefix != "" && pathPrefix[0] != '/' && pathPrefix[|pathPrefix| - 1] != '/'
    ensures ObjectKey(domainPath, pathPrefix, fullFilePath) == domainPath + "/" + pathPrefix + "/" + fullFilePath
    ensures ObjectKey(domainPath + "/", pathPrefix + "/", "/" + fullFilePath) == domainPath + "/" + pathPrefix + "/" + fullFilePath
  {
    KeyShape(domainPath, pathPrefix, fullFilePath);
    KeyShape(domainPath + "/", pathPrefix + "/", "/" + fullFilePath);
    assert TrimRight(domainPath + "/") == TrimRight(domainPath) by { assert (domainPath + "/")[..|domainPath|] == domainPath; }
    assert TrimRight(pathPrefix + "/") == TrimRight(pathPrefix) by { assert (pathPrefix + "/")[..|pathPrefix|] == pathPrefix; }
    assert TrimLeft("/" + fullFilePath) == TrimLeft(fullFilePath) by { assert ("/" + fullFilePath)[1..] == fullFilePath; }
    assert domainPath + "/" + (pathPrefix + "/") + fullFilePath == domainPath + "/" + pathPrefix + "/" + fullFilePath;
  }

  lemma CandidatesDiffer(path: string, i: nat, j: nat)
    requires path != ""
    ensures TrimLeft(Candidate(path, i)) == TrimLeft(Candidate(path, j)) ==> i == j
  {
    TrimmedCandidate(path, i);
    TrimmedCandidate(path, j);
    if i > 0 && j > 0 && TrimLeft(Candidate(path, i)) == TrimLeft(Candidate(path, j)) {
      var lead := TrimLeft(Stem(path));
      var x, y := "-" + Itoa(i), "-" + Itoa(j);
      assert lead + x + Extension(path) == lead + y + Extension(path);
      assert x == (lead + x + Extension(path))[|lead|..|lead| + |x|];
      assert |x| == |y|;
      assert y == (lead + y + Extension(path))[|lead|..|lead| + |y|];
      assert Itoa(i) == x[1..] == y[1..] == Itoa(j);
      ItoaInjective(i, j);
    }
  }

  /** A numbered candidate keeps all of the stem but its leading slashes; the path itself is shorter than any of them. */
  lemma TrimmedCandidate(path: string, i: nat)
    requires path != ""
    ensures if i == 0 then |TrimLeft(path)| <= |TrimLeft(Stem(path))| + |Extension(path)|
            else TrimLeft(Candidate(path, i)) == TrimLeft(Stem(path)) + ("-" + Itoa(i)) + Extension(path)
  {
    var stem, ext := Stem(path), Extension(path);
    BaseIsShorter(path);
    if i == 0 {
      assert path == stem + path[|stem|..];
      TrimLeftConcat(stem, path[|stem|..]);
    } else {
      TrimNumbered(stem, "-" + Itoa(i), ext);
    }
  }

  lemma TrimNumbered(stem: string, mark: string, ext: string)
    requires mark != "" && mark[0] != '/'
    ensures TrimLeft(stem + mark + ext) == TrimLeft(stem) + mark + ext
  {
    assert stem + mark + ext == stem + (mark + ext);
    TrimLeftConcat(stem, mark + ext);
  }

  function CandidateKey(domainPath: string, pathPrefix: string, path: string, i: nat): string
    requires path != ""
  {
    ObjectKey(domainPath, pathPrefix, Candidate(path, i))
  }

  function CandidateKeys(domainPath: string, pathPrefix: string, path: string): nat -> string
    requires path != ""
  {
    (i: nat) => CandidateKey(domainPath, pathPrefix, path, i)
  }

  /** The keys of a storage provider tell all candidates apart. */
  lemma ObjectKeysDistinct(domainPath: string, pathPrefix: string, path: string)
    requires path != ""
    ensures Distinct(CandidateKeys(domainPath, pathPrefix, path))
  {
    forall i: nat, j: nat | CandidateKey(domainPath, pathPrefix, path, i) == CandidateKey(domainPath, pathPrefix, path, j)
      ensures i == j
    {
      KeyShape(domainPath, pathPrefix, Candidate(path, i));
      KeyShape(domainPath, pathPrefix, Candidate(path, j));
      var front := KeyFront(domainPath, pathPrefix);
      var x, y := TrimLeft(Candidate(path, i)), TrimLeft(Candidate(path, j));
      assert x == (front + x)[|front|..] == (front + y)[|front|..] == y;
      CandidatesDiffer(path, i, j);
    }
  }

  // ---------- The search ----------

  /** The database counts at least one resource for the key. */
  predicate Taken(d: Dialect, key: string, names: set<string>) {
    exists name :: name in names && Finds(d, key, name)
  }

  ghost function Longest(names: set<string>): (n: nat)
    ensures forall name | name in names :: |name| <= n
  {
    if names == {} then 0
    else
      var name :| name in names;
      var rest := Longest(names - {name});
      if |name| > rest then |name| else rest
  }

  lemma {:induction false} ItoaIsDigits(n: nat)
    ensures DigitCount(Itoa(n)) == |Itoa(n)|
  {
    if n < 10 {
      assert Itoa(n)[1..] == "";
    } else {
      ItoaIsDigits(n / 10);
      DigitCountConcat(Itoa(n / 10), ['0' + (n % 10) as char]);
      assert ['0' + (n % 10) as char][1..] == "";
    }
  }

  lemma DigitsInside(a: string, b: string, c: string)
    ensures DigitCount(a + b + c) >= DigitCount(b)
  {
    DigitCountConcat(a + b, c);
    DigitCountConcat(a, b);
  }

  lemma Reassociate(a: string, b: string, c: string, d: string)
    ensures a + (b + c + d) == (a + b) + c + d
  {
  }

  lemma CandidateDigits(domainPath: string, pathPrefix: string, path: string, i: nat)
    requires path != "" && i > 0
    ensures DigitCount(CandidateKey(domainPath, pathPrefix, path, i)) >= |Itoa(i)|
  {
    var front, stem, mark, ext := KeyFront(domainPath, pathPrefix), TrimLeft(Stem(path)), "-" + Itoa(i), Extension(path);
    KeyShape(domainPath, pathPrefix, Candidate(path, i));
    TrimmedCandidate(path, i);
    Reassociate(front, stem, mark, ext);
    DigitsInside(front + stem, mark, ext);
    DigitCountConcat("-", Itoa(i));
    ItoaIsDigits(i);
  }

  /** A name can block only the candidates whose number has no more digits than the name has characters. */
  lemma TakenIsSmall(d: Dialect, domainPath: string, pathPrefix: string, path: string, i: nat, names: set<string>)
    requires Sane(d) && path != "" && Taken(d, CandidateKey(domainPath, pathPrefix, path, i), names)
    ensures i < Power10(Longest(names))
  {
    if i > 0 {
      var key := CandidateKey(domainPath, pathPrefix, path, i);
      var name :| name in names && Finds(d, key, name);
      FoundIsLong(d, key, name);
      CandidateDigits(domainPath, pathPrefix, path, i);
      ItoaLength(i);
      Power10Monotone(|Itoa(i)|, Longest(names));
    }
  }

  /** The loop ends at candidate `n`: the first one for which the database counts nothing. */
  ghost predicate EndsAt(d: Dialect, domainPath: string, pathPrefix: string, path: string, names: set<string>, n: nat)
    requires path != ""
  {
    && !Taken(d, CandidateKey(domainPath, pathPrefix, path, n), names)
    && forall j | 0 <= j < n :: Taken(d, CandidateKey(domainPath, pathPrefix, path, j), names)
  }

  /** The step of the loop: everything after the stem is replaced. */
  lemma NextCandidate(path: string, i: nat)
    requires path != "" && i > 0
    ensures var last, stem := Candidate(path, i - 1), |path| - |Extension(path)|;
            0 <= stem <= |last| && last[..stem] + ("-" + Itoa(i)) + Extension(path) == Candidate(path, i)
  {
    BaseIsShorter(path);
    CandidateStem(path, i - 1);
  }

  /** GetResourceCount, which the loop compares with 0. */
  method CountResources(d: Dialect, key: string, names: set<string>) returns (count: nat)
    ensures count == 0 <==> !Taken(d, key, names)
  {
    var found := set name | name in names && Finds(d, key, name);
    count := |found|;
    if count != 0 {
      assert exists name :: name in found;
    }
    if name :| name in names && Finds(d, key, name) {
      assert name in found;
    }
  }

  /** Only candidates with smaller numbers are counted. */
  ghost predicate CountedBelow(d: Dialect, key: string -> string, path: string, names: set<string>, limit: nat)
    requires path != ""
  {
    forall i: nat :: Taken(d, key(Candidate(path, i)), names) ==> i < limit
  }

  lemma CountedIsBelow(d: Dialect, key: string -> string, path: string, names: set<string>, limit: nat, i: nat)
    requires path != "" && CountedBelow(d, key, path, names, limit) && Taken(d, key(Candidate(path, i)), names)
    ensures i < limit
  {
  }

  /** The loop, for any keys and any bound on the number of a candidate that is taken. */
  method FirstUncounted(d: Dialect, key: string -> string, path: string, names: set<string>, ghost limit: nat)
      returns (fullFilePath: string)
    requires path != "" && CountedBelow(d, key, path, names, limit)
    ensures !Taken(d, key(fullFilePath), names)
    ensures exists n: nat :: n <= limit && fullFilePath == Candidate(path, n)
                             && forall j | 0 <= j < n :: Taken(d, key(Candidate(path, j)), names)
  {
    fullFilePath := path;
    BaseIsShorter(path);
    var ext := Extension(path);
    var index := |path| - |ext|;
    var i := 1;
    while true
      invariant 1 <= i <= limit + 1 && fullFilePath == Candidate(path, i - 1)
      invariant forall j | 0 <= j < i - 1 :: Taken(d, key(Candidate(path, j)), names)
      decreases limit + 1 - i
    {
      var count := CountResources(d, key(fullFilePath), names);
      if count == 0 {
        return;
      }
      CountedIsBelow(d, key, path, names, limit, i - 1);
      NextCandidate(path, i);
      fullFilePath := fullFilePath[..index] + ("-" + Itoa(i)) + ext;
      i := i + 1;
    }
  }

  /** A stored object, as the database knows it.  The key of the object itself is only its name. */
  datatype Resource = Resource(owner: string, user: string, name: string)

  /** The resource is one of those that are counted: an empty owner or user stands for any one. */
  predicate IsCounted(r: Resource, owner: string, user: string) {
    owner in {"", r.owner} && user in {"", r.user}
  }

  function NamesOf(resources: set<Resource>, owner: string, user: string): set<string> {
    set r | r in resources && IsCounted(r, owner, user) :: r.name
  }

  /** The search of the upload: ends for every finite set of resources, at the first candidate whose count is 0. */
  method FreeName(d: Dialect, domainPath: string, pathPrefix: string, path: string,
                  resources: set<Resource>, owner: string, user: string) returns (fullFilePath: string)
    requires path != "" && Sane(d)
    ensures !Taken(d, ObjectKey(domainPath, pathPrefix, fullFilePath), NamesOf(resources, owner, user))
    ensures exists n: nat :: n <= Power10(Longest(NamesOf(resources, owner, user))) && fullFilePath == Candidate(path, n)
                             && EndsAt(d, domainPath, pathPrefix, path, NamesOf(resources, owner, user), n)
  {
    var names := NamesOf(resources, owner, user);
    var key := (name: string) => ObjectKey(domainPath, pathPrefix, name);
    forall i: nat | Taken(d, key(Candidate(path, i)), names)
      ensures i < Power10(Longest(names))
    {
      TakenIsSmall(d, domainPath, pathPrefix, path, i, names);
    }
    fullFilePath := FirstUncounted(d, key, path, names, Power10(Longest(names)));
    ghost var n: nat :| n <= Power10(Longest(names)) && fullFilePath == Candidate(path, n)
                        && forall j | 0 <= j < n :: Taken(d, key(Candidate(path, j)), names);
    forall j | 0 <= j < n
      ensures Taken(d, CandidateKey(domainPath, pathPrefix, path, j), names)
    {
      assert Taken(d, key(Candidate(path, j)), names);
    }
  }

  // ---------- What the result is worth ----------

  /** A key whose count is 0 is sure to be no existing name if and only if the key, as a pattern, finds itself. */
  lemma NewIffFindsItself(d: Dialect, key: string)
    ensures (forall names: set<string> :: !Taken(d, key, names) ==> key !in names) <==> Finds(d, key, key)
  {
    if !Finds(d, key, key) {
      assert !Taken(d, key, {key}) && key in {key};
    }
  }

  /**
    That holds among the names that are counted.  Among the objects of all users, a key whose count is 0 is sure
    to be new if and only if it finds itself and the count is not restricted to an owner or a user.
   */
  lemma NewForAllIffAllCounted(d: Dialect, key: string, owner: string, user: string)
    ensures (forall resources: set<Resource>, r: Resource ::
               !Taken(d, key, NamesOf(resources, owner, user)) && r in resources ==> r.name != key)
            <==> Finds(d, key, key) && owner == "" && user == ""
  {
    if !Finds(d, key, key) {
      OnlyOneCounts(d, key, owner, user, Resource(owner, user, key));
    } else if owner != "" {
      OnlyOneCounts(d, key, owner, user, Resource("", user, key));
    } else if user != "" {
      OnlyOneCounts(d, key, owner, user, Resource(owner, "", key));
    } else {
      forall resources: set<Resource>, r: Resource | !Taken(d, key, NamesOf(resources, "", "")) && r in resources
        ensures r.name != key
      {
        assert IsCounted(r, "", "") && r.name in NamesOf(resources, "", "");
      }
    }
  }

  /** The only object has the key, and is not counted for it. */
  lemma OnlyOneCounts(d: Dialect, key: string, owner: string, user: string, r: Resource)
    requires r.name == key && (!Finds(d, key, key) || !IsCounted(r, owner, user))
    ensures r in {r} && !Taken(d, key, NamesOf({r}, owner, user))
  {
  }

  /** So it is, for keys without wildcards below a slash, exactly if escape characters stand at their end only, evenly many. */
  lemma NewIffEscapesAtEnd(d: Dialect, key: string)
    requires Sane(d) && NoWildcards(key) && key != "" && !d.IsEscape(key[0])
    ensures (forall names: set<string> :: !Taken(d, key, names) ==> key !in names) <==> EscapesAtEnd(d, key)
  {
    NewIffFindsItself(d, key);
    FindsItselfIffEscapesAtEnd(d, key);
  }

  /** For all keys without escape characters, wildcards or not, the result is a new name. */
  lemma NewWithoutEscapes(d: Dialect, key: string, names: set<string>)
    requires Sane(d) && !Taken(d, key, names) && forall c | c in key :: !d.IsEscape(c)
    ensures key !in names
  {
    FindsItself(d, key);
  }

  /**
    The loop ends at the first candidate that is no existing name if and only if nothing is counted for that
    one and something for each one before.  Where keys find themselves, it never ends earlier, and it ends
    there if and only if that key occurs in no existing name.
   */
  lemma FirstFreeIffNotFound(d: Dialect, domainPath: string, pathPrefix: string, path: string, names: set<string>,
                             m: nat, n: nat)
    requires path != "" && EndsAt(d, domainPath, pathPrefix, path, names, n)
    requires CandidateKey(domainPath, pathPrefix, path, m) !in names
    requires forall j | 0 <= j < m :: CandidateKey(domainPath, pathPrefix, path, j) in names
    ensures n == m <==> EndsAt(d, domainPath, pathPrefix, path, names, m)
    ensures (forall j | 0 <= j < m :: var key := CandidateKey(domainPath, pathPrefix, path, j); Finds(d, key, key)) ==>
              && m <= n && (n == m <==> !Taken(d, CandidateKey(domainPath, pathPrefix, path, m), names))
  {
    var key := (i: nat) => CandidateKey(domainPath, pathPrefix, path, i);
    if n < m {
      assert !Taken(d, key(n), names) && key(n) in names;
    }
    if m < n {
      assert Taken(d, key(m), names);
    }
  }

  /** There always is a first candidate that is no existing name, after at most as many as there are names. */
  lemma FirstFreeExists(domainPath: string, pathPrefix: string, path: string, names: set<string>) returns (m: nat)
    requires path != ""
    ensures CandidateKey(domainPath, pathPrefix, path, m) !in names && m <= |names|
    ensures forall j | 0 <= j < m :: CandidateKey(domainPath, pathPrefix, path, j) in names
  {
    ObjectKeysDistinct(domainPath, pathPrefix, path);
    var key := CandidateKeys(domainPath, pathPrefix, path);
    m := FirstFree(key, names);
    forall j | 0 <= j < m
      ensures CandidateKey(domainPath, pathPrefix, path, j) in names
    {
      assert key(j) in names;
    }
  }

  // ---------- Where the result is not the first free name ----------

  function Backslash(): Dialect {
    Dialect(Option.Some('\\'), (c: char) => c)
  }

  /** A plain name in the root: no directory and no extension. */
  predicate IsPlain(path: string) {
    path != "" && forall c | c in path :: c != '/' && c != '.' && !IsSpecial(Backslash(), c)
  }

  lemma PlainCandidate(path: string, i: nat)
    requires IsPlain(path)
    ensures CandidateKey("", "", path, i) == "/" + (if i == 0 then path else path + ("-" + Itoa(i)))
  {
    PlainExtension(path);
    KeyShape("", "", Candidate(path, i));
    assert path[0] in path && TrimLeft(path) == path;
    TrimmedCandidate(path, i);
    assert Stem(path) == path;
    assert KeyFront("", "") == "/";
  }

  lemma SuffixFirst(s: string, t: string)
    requires IsSuffix(t, s)
    ensures t != "" ==> t[0] in s
  {
  }

  lemma PlainExtension(path: string)
    requires IsPlain(path)
    ensures Extension(path) == ""
  {
    var ext := Extension(path);
    assert path[|path| - 1] in path;
    ExtensionShape(path);
    ExtensionIsSuffix(path);
    SuffixFirst(path, ext);
  }

  lemma {:induction false} DigitsOnly(n: nat)
    ensures forall c | c in Itoa(n) :: IsDigit(c)
  {
    if n >= 10 {
      DigitsOnly(n / 10);
    }
  }

  lemma PlainKey(path: string, i: nat)
    requires IsPlain(path)
    ensures forall c | c in CandidateKey("", "", path, i) :: !IsSpecial(Backslash(), c)
  {
    PlainCandidate(path, i);
    DigitsOnly(i);
  }

  lemma BackslashIsSane()
    ensures Sane(Backslash())
  {
  }

  /** An existing name that the key of a plain path occurs in makes the loop go on. */
  lemma InsideIsTaken(path: string, i: nat, before: string, rest: string)
    requires IsPlain(path)
    ensures Taken(Backslash(), CandidateKey("", "", path, i), {before + CandidateKey("", "", path, i) + rest})
  {
    BackslashIsSane();
    PlainKey(path, i);
    FindsLonger(Backslash(), before, CandidateKey("", "", path, i), rest);
  }

  lemma PrefixIsTaken(path: string, i: nat, rest: string)
    requires IsPlain(path)
    ensures Taken(Backslash(), CandidateKey("", "", path, i), {CandidateKey("", "", path, i) + rest})
  {
    InsideIsTaken(path, i, "", rest);
    assert "" + CandidateKey("", "", path, i) == CandidateKey("", "", path, i);
  }

  lemma SuffixIsTaken(path: string, i: nat, before: string)
    requires IsPlain(path)
    ensures Taken(Backslash(), CandidateKey("", "", path, i), {before + CandidateKey("", "", path, i)})
  {
    InsideIsTaken(path, i, before, "");
    assert before + CandidateKey("", "", path, i) + "" == before + CandidateKey("", "", path, i);
  }

  /** One name can hold back two candidates, so the number of the result can be greater than that of the names. */
  lemma OneNameHoldsBackTwo(path: string, n: nat)
    requires IsPlain(path)
    requires EndsAt(Backslash(), "", "", path, {CandidateKey("", "", path, 0) + CandidateKey("", "", path, 1)}, n)
    ensures n > 1
  {
    PrefixIsTaken(path, 0, CandidateKey("", "", path, 1));
    SuffixIsTaken(path, 1, CandidateKey("", "", path, 0));
  }

  /** A name without a dash does not hold back a numbered candidate. */
  lemma NumberedIsFree(path: string, i: nat, name: string)
    requires IsPlain(path) && i > 0 && '-' !in name
    ensures !Taken(Backslash(), CandidateKey("", "", path, i), {name})
  {
    var key := CandidateKey("", "", path, i);
    BackslashIsSane();
    PlainKey(path, i);
    PlainCandidate(path, i);
    assert key[|path| + 1] == '-' && '-' in key;
    if Finds(Backslash(), key, name) {
      FoundHasAll(Backslash(), key, name, '-');
    }
  }

  /**
    With a plain path and, after its slash, more, as the only name, the path itself is free, but the upload
    gets the number 1: so "pic" next to "/pic.png".
   */
  lemma LongerNameIsSkipped(path: string, rest: string, n: nat)
    requires IsPlain(path) && rest != "" && '-' !in path + rest
    requires EndsAt(Backslash(), "", "", path, {"/" + path + rest}, n)
    ensures CandidateKey("", "", path, 0) !in {"/" + path + rest} && n == 1
  {
    PlainCandidate(path, 0);
    PrefixIsTaken(path, 0, rest);
    NumberedIsFree(path, 1, "/" + path + rest);
    assert |"/" + path| < |"/" + path + rest|;
  }

  lemma PicIsPlain()
    ensures IsPlain("pic") && '-' !in "pic" + ".png"
  {
    assert "pic" == ['p', 'i', 'c'] && "pic" + ".png" == ['p', 'i', 'c', '.', 'p', 'n', 'g'];
  }

  lemma PictureIsSkipped(n: nat)
    requires EndsAt(Backslash(), "", "", "pic", {"/" + "pic" + ".png"}, n)
    ensures CandidateKey("", "", "pic", 0) !in {"/" + "pic" + ".png"} && n == 1
  {
    PicIsPlain();
    LongerNameIsSkipped("pic", ".png", n);
  }

  /** A key with a backslash inside does not find itself: the existing name is given out again. */
  lemma BackslashIsOverwritten()
    ensures var key := "/a\\b"; !Taken(Backslash(), key, {key})
  {
    var key := "/a\\b";
    assert !EscapesAtEnd(Backslash(), key) by {
      assert key[1..][1..] == "\\b" && "\\b"[1] in "\\b";
    }
    FindsItselfIffEscapesAtEnd(Backslash(), key);
  }
}
