/**
  The strings that are signed or checked: one line `key=value` for each entry of a map.  Go ranges over
  a map in any order, so what matters is that sorting takes the order away.
 */
module SigningStrings {
  import opened Splitting
  import opened StringOrder

  function Line(key: string, value: string): string {
    key + "=" + value
  }

  /** Renders the entry of a key. */
  function Render(data: map<string, string>): string -> string {
    (key: string) => Line(key, if key in data then data[key] else "")
  }

  // ---------- Telegram: the lines are sorted ----------

  /** The data-check string when the range over the map goes through `keys`. */
  function DataCheckOf(data: map<string, string>, keys: seq<string>): string {
    Join(Sort(Apply(Render(data), keys)), '\n')
  }

  /** Whatever the order of the range, the data-check string is the same. */
  lemma DataCheckIgnoresOrder(data: map<string, string>, a: seq<string>, b: seq<string>)
    requires Enumerates(a, data.Keys - {"hash"}) && Enumerates(b, data.Keys - {"hash"})
    ensures DataCheckOf(data, a) == DataCheckOf(data, b)
  {
    EnumerationsPermute(a, b, data.Keys - {"hash"});
    ApplyPermutes(Render(data), a, b);
    SortSorted(Apply(Render(data), a));
    SortSorted(Apply(Render(data), b));
    SortedUnique(Sort(Apply(Render(data), a)), Sort(Apply(Render(data), b)));
  }

  method DataCheckString(authData: map<string, string>) returns (dataCheckString: string)
    ensures forall keys | Enumerates(keys, authData.Keys - {"hash"}) :: dataCheckString == DataCheckOf(authData, keys)
  {
    var dataCheckArr: seq<string> := [];
    var todo := authData.Keys;
    ghost var order: seq<string> := [];
    while todo != {}
      invariant todo <= authData.Keys
      invariant Enumerates(order, authData.Keys - {"hash"} - todo)
      invariant dataCheckArr == Apply(Render(authData), order)
      decreases todo
    {
      var key :| key in todo;
      todo := todo - {key};
      if key != "hash" {
        dataCheckArr := dataCheckArr + [key + "=" + authData[key]];
        order := order + [key];
      }
    }
    dataCheckArr := Sort(dataCheckArr);
    dataCheckString := Join(dataCheckArr, '\n');
    forall keys | Enumerates(keys, authData.Keys - {"hash"})
      ensures dataCheckString == DataCheckOf(authData, keys)
    {
      DataCheckIgnoresOrder(authData, order, keys);
    }
  }

  predicate IsClean(data: map<string, string>) {
    forall k | k in data && k != "hash" :: '=' !in k && '\n' !in k && '\n' !in data[k]
  }

  lemma EqualsSign(key: string, value: string)
    requires '=' !in key
    ensures Line(key, value)[|key|] == '=' && forall i | 0 <= i < |key| :: Line(key, value)[i] != '='
  {
    assert forall i | 0 <= i < |key| :: Line(key, value)[i] == key[i] && key[i] in key;
  }

  lemma LineInjective(k1: string, v1: string, k2: string, v2: string)
    requires '=' !in k1 && '=' !in k2 && Line(k1, v1) == Line(k2, v2)
    ensures k1 == k2 && v1 == v2
  {
    EqualsSign(k1, v1);
    EqualsSign(k2, v2);
    assert k1 == Line(k1, v1)[..|k1|] && k2 == Line(k2, v2)[..|k2|];
    assert v1 == Line(k1, v1)[|k1| + 1..] && v2 == Line(k2, v2)[|k2| + 1..];
  }

  /** The lines that were joined can be read off the data-check string of clean data. */
  lemma LinesOfDataCheck(data: map<string, string>, keys: seq<string>)
    requires Enumerates(keys, data.Keys - {"hash"}) && IsClean(data)
    ensures keys == [] <==> DataCheckOf(data, keys) == ""
    ensures keys != [] ==> Split(DataCheckOf(data, keys), '\n') == Sort(Apply(Render(data), keys))
  {
    var lines, sorted := Apply(Render(data), keys), Sort(Apply(Render(data), keys));
    assert |multiset(sorted)| == |sorted| && |multiset(lines)| == |lines|;
    forall i | 0 <= i < |sorted|
      ensures '\n' !in sorted[i] && sorted[i] != ""
    {
      assert sorted[i] in multiset(sorted) && sorted[i] in multiset(lines);
      var j :| 0 <= j < |lines| && lines[j] == sorted[i];
      assert keys[j] in keys && keys[j] in data && lines[j] == Line(keys[j], data[keys[j]]);
      assert lines[j][|keys[j]|] == '=';
    }
    if keys != [] {
      SplitOfJoin(sorted, '\n');
      assert Split("", '\n') == [""];
    }
  }

  lemma DataCheckIncludes(a: map<string, string>, ka: seq<string>, b: map<string, string>, kb: seq<string>, k: string)
    requires Enumerates(ka, a.Keys - {"hash"}) && IsClean(a) && Enumerates(kb, b.Keys - {"hash"}) && IsClean(b)
    requires DataCheckOf(a, ka) == DataCheckOf(b, kb) && k in a && k != "hash"
    ensures k in b && b[k] == a[k]
  {
    LinesOfDataCheck(a, ka);
    LinesOfDataCheck(b, kb);
    var la, lb := Apply(Render(a), ka), Apply(Render(b), kb);
    assert k in ka;
    var i :| 0 <= i < |ka| && ka[i] == k;
    assert la[i] in multiset(la) && la[i] in multiset(Sort(la)) && la[i] in multiset(lb);
    var j :| 0 <= j < |lb| && lb[j] == la[i];
    assert kb[j] in kb && kb[j] in b;
    LineInjective(k, a[k], kb[j], b[kb[j]]);
  }

  lemma DataCheckIncludesAll(a: map<string, string>, ka: seq<string>, b: map<string, string>, kb: seq<string>)
    requires Enumerates(ka, a.Keys - {"hash"}) && IsClean(a) && Enumerates(kb, b.Keys - {"hash"}) && IsClean(b)
    requires DataCheckOf(a, ka) == DataCheckOf(b, kb)
    ensures forall k | k in a && k != "hash" :: k in b && b[k] == a[k]
  {
    forall k | k in a && k != "hash"
      ensures k in b && b[k] == a[k]
    {
      DataCheckIncludes(a, ka, b, kb, k);
    }
  }

  lemma SameButHash(a: map<string, string>, b: map<string, string>)
    requires forall k | k in a && k != "hash" :: k in b && b[k] == a[k]
    requires forall k | k in b && k != "hash" :: k in a && a[k] == b[k]
    ensures a - {"hash"} == b - {"hash"}
  {
  }

  lemma CleanDetermines(a: map<string, string>, ka: seq<string>, b: map<string, string>, kb: seq<string>)
    requires Enumerates(ka, a.Keys - {"hash"}) && IsClean(a) && Enumerates(kb, b.Keys - {"hash"}) && IsClean(b)
    requires DataCheckOf(a, ka) == DataCheckOf(b, kb)
    ensures a - {"hash"} == b - {"hash"}
  {
    DataCheckIncludesAll(a, ka, b, kb);
    DataCheckIncludesAll(b, kb, a, ka);
    SameButHash(a, b);
  }

  lemma SameIsClean(a: map<string, string>, b: map<string, string>)
    requires IsClean(a) && a - {"hash"} == b - {"hash"}
    ensures IsClean(b)
  {
    forall k | k in b && k != "hash"
      ensures k in a && a[k] == b[k]
    {
      assert k in b - {"hash"} && k in a - {"hash"} && (a - {"hash"})[k] == (b - {"hash"})[k];
    }
  }

  /**
    Data with the data-check string of clean data are that data if and only if they are clean: no key has an
    equals sign, and no line feed is in them.
   */
  lemma DataCheckDetermines(a: map<string, string>, ka: seq<string>, b: map<string, string>, kb: seq<string>)
    requires Enumerates(ka, a.Keys - {"hash"}) && IsClean(a) && Enumerates(kb, b.Keys - {"hash"})
    requires DataCheckOf(a, ka) == DataCheckOf(b, kb)
    ensures a - {"hash"} == b - {"hash"} <==> IsClean(b)
  {
    if IsClean(b) {
      CleanDetermines(a, ka, b, kb);
    } else if a - {"hash"} == b - {"hash"} {
      SameIsClean(a, b);
    }
  }

  lemma {:induction false} JoinLastTwo(parts: seq<string>, x: string, y: string)
    ensures Join(parts + [x + "\n" + y], '\n') == Join(parts + [x, y], '\n')
  {
    if parts == [] {
      assert [x, y][1..] == [y] && parts + [x, y] == [x, y] && parts + [x + "\n" + y] == [x + "\n" + y];
    } else {
      JoinLastTwo(parts[1..], x, y);
      assert (parts + [x, y])[1..] == parts[1..] + [x, y];
      assert (parts + [x + "\n" + y])[1..] == parts[1..] + [x + "\n" + y];
    }
  }

  lemma LastLonger(lines: seq<string>, x: string, rest: string)
    requires Sorted(lines + [x])
    ensures Sorted(lines + [x + rest])
  {
    LongerIsLater(x, rest);
    SortedAppend(lines, x);
    SortedAppend(lines, x + rest);
    forall i | 0 <= i < |lines|
      ensures AtMost(lines[i], x + rest)
    {
      Transitive(lines[i], x, x + rest);
    }
  }

  /** The last two of sorted lines may be joined to one: the list stays sorted, and the text the same. */
  lemma LastTwoJoined(lines: seq<string>, x: string, y: string)
    requires Sorted(lines + [x, y])
    ensures Join(Sort(lines + [x + "\n" + y]), '\n') == Join(lines + [x, y], '\n')
  {
    assert lines + [x, y] == (lines + [x]) + [y];
    SortedAppend(lines + [x], y);
    assert x + ("\n" + y) == x + "\n" + y;
    LastLonger(lines, x, "\n" + y);
    IsSorted(lines + [x + "\n" + y]);
    JoinLastTwo(lines, x, y);
  }

  /** The data with the value of `k1` followed by a line feed and the line of `k2`, which is left out. */
  function Swallowed(data: map<string, string>, k1: string, k2: string): map<string, string>
    requires k1 in data && k2 in data
  {
    data[k1 := data[k1] + "\n" + Line(k2, data[k2])] - {k2}
  }

  lemma SwallowedLines(data: map<string, string>, init: seq<string>, k1: string, k2: string)
    requires k1 in data && k2 in data && k1 != k2 && k1 !in init && k2 !in init
    ensures Apply(Render(Swallowed(data, k1, k2)), init + [k1])
         == Apply(Render(data), init) + [Line(k1, data[k1]) + "\n" + Line(k2, data[k2])]
    ensures Apply(Render(data), init + [k1, k2]) == Apply(Render(data), init) + [Line(k1, data[k1]), Line(k2, data[k2])]
  {
    assert Line(k1, data[k1] + "\n" + Line(k2, data[k2])) == Line(k1, data[k1]) + "\n" + Line(k2, data[k2]);
    var other := Swallowed(data, k1, k2);
    assert forall i | 0 <= i < |init| :: init[i] in init && Render(other)(init[i]) == Render(data)(init[i]);
  }

  /** If the lines are sorted in this order, the last one may as well be part of the value before. */
  lemma SwallowedCheck(data: map<string, string>, init: seq<string>, k1: string, k2: string)
    requires k1 in data && k2 in data && k1 != k2 && k1 !in init && k2 !in init
    requires Sorted(Apply(Render(data), init + [k1, k2]))
    ensures DataCheckOf(Swallowed(data, k1, k2), init + [k1]) == DataCheckOf(data, init + [k1, k2])
  {
    SwallowedLines(data, init, k1, k2);
    var lines, x, y := Apply(Render(data), init), Line(k1, data[k1]), Line(k2, data[k2]);
    IsSorted(lines + [x, y]);
    LastTwoJoined(lines, x, y);
  }

  lemma IsSorted(lines: seq<string>)
    requires Sorted(lines)
    ensures Sort(lines) == lines
  {
    SortSorted(lines);
    SortedUnique(Sort(lines), lines);
  }

  /** The keys in the order of their lines. */
  lemma LineOrderOf(data: map<string, string>, keys: seq<string>) returns (init: seq<string>, k1: string, k2: string)
    requires Enumerates(keys, data.Keys - {"hash"}) && |keys| >= 2
    ensures Enumerates(init + [k1, k2], data.Keys - {"hash"})
    ensures Sorted(Apply(Render(data), init + [k1, k2]))
  {
    var order := SortOrder(Render(data), keys);
    SortSorted(Apply(Render(data), keys));
    PermutedEnumerates(keys, order, data.Keys - {"hash"});
    SameLength(keys, order);
    init, k1, k2 := order[..|order| - 2], order[|order| - 2], order[|order| - 1];
    assert order == init + [k1, k2];
  }

  lemma SwallowedKeys(data: map<string, string>, init: seq<string>, k1: string, k2: string)
    requires k1 in data && k2 in data && k1 != k2 && Enumerates(init + [k1, k2], data.Keys - {"hash"})
    ensures Enumerates(init + [k1], Swallowed(data, k1, k2).Keys - {"hash"})
    ensures Swallowed(data, k1, k2) - {"hash"} != data - {"hash"}
  {
    LastTwoApart(init, k1, k2, data.Keys - {"hash"});
    assert init + [k1, k2] == (init + [k1]) + [k2];
    AllButLast(init + [k1, k2], init + [k1], k2, data.Keys - {"hash"});
    assert Swallowed(data, k1, k2).Keys - {"hash"} == data.Keys - {"hash"} - {k2};
    assert k2 in data - {"hash"} && k2 !in Swallowed(data, k1, k2) - {"hash"};
  }

  /** The string never determines the data among all data when it has two lines: the last one may be part of the value before. */
  lemma TwoLinesConfuse(data: map<string, string>, keys: seq<string>) returns (k1: string, k2: string, others: seq<string>)
    requires Enumerates(keys, data.Keys - {"hash"}) && |keys| >= 2
    ensures k1 in data && k2 in data && k1 != k2 && "hash" !in {k1, k2}
    ensures var other := Swallowed(data, k1, k2);
            && Enumerates(others, other.Keys - {"hash"}) && DataCheckOf(other, others) == DataCheckOf(data, keys)
            && other - {"hash"} != data - {"hash"}
  {
    var init: seq<string>;
    init, k1, k2 := LineOrderOf(data, keys);
    others := init + [k1];
    LastTwoApart(init, k1, k2, data.Keys - {"hash"});
    SwallowedCheck(data, init, k1, k2);
    SwallowedKeys(data, init, k1, k2);
    DataCheckIgnoresOrder(data, keys, init + [k1, k2]);
  }

  lemma LastTwoApart(init: seq<string>, k1: string, k2: string, s: set<string>)
    requires Enumerates(init + [k1, k2], s)
    ensures k1 in s && k2 in s && k1 != k2 && k1 !in init && k2 !in init
  {
    var all := init + [k1, k2];
    assert all[|init|] == k1 && all[|init| + 1] == k2 && forall i | 0 <= i < |init| :: all[i] == init[i];
    assert k1 in all && k2 in all;
  }

  lemma AllButLast(all: seq<string>, init: seq<string>, last: string, s: set<string>)
    requires Enumerates(all, s) && all == init + [last]
    ensures Enumerates(init, s - {last})
  {
    forall i, j | 0 <= i < j < |init|
      ensures init[i] != init[j]
    {
      assert all[i] == init[i] && all[j] == init[j];
    }
    forall k
      ensures k in init <==> k in s - {last}
    {
      assert k in all <==> k in init || k == last;
      if k in init {
        var i :| 0 <= i < |init| && init[i] == k;
        assert all[i] == k && all[|init|] == last;
      }
    }
  }

  // ---------- Sorting lines against sorting keys ----------

  predicate IsProperPrefix(s: string, t: string) {
    |s| < |t| && s == t[..|s|]
  }

  /** The lines of two keys come in the order of the keys, unless one key goes on from the other with too small a character. */
  predicate LinesKeepOrder(k1: string, v1: string, k2: string, v2: string) {
    IsProperPrefix(k1, k2) ==>
      k2[|k1|] > '=' || (k2[|k1|] == '=' && AtMost(v1, Line(k2[|k1| + 1..], v2)))
  }

  lemma {:induction false} LineOrder(k1: string, v1: string, k2: string, v2: string)
    requires AtMost(k1, k2) && k1 != k2
    ensures AtMost(Line(k1, v1), Line(k2, v2)) <==> LinesKeepOrder(k1, v1, k2, v2)
  {
    var l1, l2 := Line(k1, v1), Line(k2, v2);
    if k1 == "" {
      assert l1[0] == '=' && l1[1..] == v1 && l2[0] == k2[0];
      assert l2[1..] == Line(k2[1..], v2);
    } else {
      assert l1[0] == k1[0] && l2[0] == k2[0];
      assert l1[1..] == Line(k1[1..], v1) && l2[1..] == Line(k2[1..], v2);
      if k1[0] == k2[0] {
        assert k1 == [k1[0]] + k1[1..] && k2 == [k2[0]] + k2[1..];
        LineOrder(k1[1..], v1, k2[1..], v2);
        PrefixStep(k1, k2);
      }
    }
  }

  ghost predicate KeysKeepOrder(data: map<string, string>, keys: seq<string>)
    requires forall k | k in keys :: k in data
  {
    forall i, j | 0 <= i < j < |keys| :: LinesKeepOrder(keys[i], data[keys[i]], keys[j], data[keys[j]])
  }

  lemma PrefixStep(s: string, t: string)
    requires s != "" && t != "" && s[0] == t[0]
    ensures IsProperPrefix(s, t) <==> IsProperPrefix(s[1..], t[1..])
  {
    if |s| < |t| {
      assert t[..|s|] == [t[0]] + t[1..][..|s| - 1] && s == [s[0]] + s[1..];
    }
  }

  /**
    Sorting the rendered lines is rendering in the order of the keys if and only if no key goes on from
    another one in a way that would come before its equals sign.
   */
  lemma SortedLinesIffKeysKeepOrder(data: map<string, string>, keys: seq<string>)
    requires Enumerates(keys, data.Keys) && Sorted(keys)
    ensures Sort(Apply(Render(data), keys)) == Apply(Render(data), keys)
            <==> KeysKeepOrder(data, keys)
  {
    var lines := Apply(Render(data), keys);
    forall i, j | 0 <= i < j < |keys|
      ensures AtMost(lines[i], lines[j]) <==> LinesKeepOrder(keys[i], data[keys[i]], keys[j], data[keys[j]])
    {
      assert keys[i] in data && keys[j] in data;
      LineOrder(keys[i], data[keys[i]], keys[j], data[keys[j]]);
    }
    SortSorted(lines);
    if Sorted(lines) {
      SortedUnique(Sort(lines), lines);
    }
  }

  /** So it is whenever every character of every key is greater than the equals sign. */
  lemma SortedLinesOfPlainKeys(data: map<string, string>, keys: seq<string>)
    requires Enumerates(keys, data.Keys) && Sorted(keys)
    requires forall k | k in data :: forall c | c in k :: c > '='
    ensures Sort(Apply(Render(data), keys)) == Apply(Render(data), keys)
  {
    forall i, j | 0 <= i < j < |keys|
      ensures LinesKeepOrder(keys[i], data[keys[i]], keys[j], data[keys[j]])
    {
      assert keys[j] in data;
      if IsProperPrefix(keys[i], keys[j]) {
        assert keys[j][|keys[i]|] in keys[j];
      }
    }
    SortedLinesIffKeysKeepOrder(data, keys);
  }

  // ---------- Alipay: the keys are sorted ----------

  function TrimLeft(s: string): string {
    if s != "" && s[0] == '&' then TrimLeft(s[1..]) else s
  }

  function TrimRight(s: string): string {
    if s != "" && s[|s| - 1] == '&' then TrimRight(s[..|s| - 1]) else s
  }

  predicate Signed(formData: map<string, seq<string>>, key: string)
    requires key in formData && formData[key] != []
  {
    key != "sign" && formData[key][0] != ""
  }

  ghost predicate HasValues(formData: map<string, seq<string>>) {
    forall k | k in formData :: formData[k] != []
  }

  /** The lines of the signed keys. */
  function SignedLines(formData: map<string, seq<string>>, keys: seq<string>): seq<string>
    requires forall k | k in keys :: k in formData && formData[k] != []
  {
    if keys == [] then []
    else (if Signed(formData, keys[0]) then [Line(keys[0], formData[keys[0]][0])] else [])
         + SignedLines(formData, keys[1..])
  }

  /** Every line with an ampersand before it. */
  function WithAmpersands(lines: seq<string>): string {
    if lines == [] then "" else "&" + lines[0] + WithAmpersands(lines[1..])
  }

  function StringToSign(formData: map<string, seq<string>>, keys: seq<string>): string
    requires forall k | k in keys :: k in formData && formData[k] != []
  {
    TrimRight(TrimLeft(WithAmpersands(SignedLines(formData, keys))))
  }

  lemma RegroupLines(a: seq<string>, b: seq<string>, c: seq<string>)
    ensures a + (b + c) == (a + b) + c
  {
  }

  lemma {:induction false} SignedLinesConcat(formData: map<string, seq<string>>, a: seq<string>, b: seq<string>)
    requires forall k | k in a + b :: k in formData && formData[k] != []
    ensures forall k | k in a || k in b :: k in formData && formData[k] != []
    ensures SignedLines(formData, a + b) == SignedLines(formData, a) + SignedLines(formData, b)
  {
    assert forall k | k in a || k in b :: k in a + b;
    if a == [] {
      assert a + b == b;
    } else {
      var first := if Signed(formData, a[0]) then [Line(a[0], formData[a[0]][0])] else [];
      assert (a + b)[1..] == a[1..] + b;
      SignedLinesConcat(formData, a[1..], b);
      RegroupLines(first, SignedLines(formData, a[1..]), SignedLines(formData, b));
    }
  }

  lemma {:induction false} WithAmpersandsConcat(a: seq<string>, b: seq<string>)
    ensures WithAmpersands(a + b) == WithAmpersands(a) + WithAmpersands(b)
  {
    if a == [] {
      assert a + b == b;
    } else {
      assert (a + b)[1..] == a[1..] + b;
      WithAmpersandsConcat(a[1..], b);
    }
  }

  lemma NextLine(formData: map<string, seq<string>>, keys: seq<string>, k: string)
    requires forall x | x in keys :: x in formData && formData[x] != []
    requires k in formData && formData[k] != []
    ensures forall x | x in keys + [k] :: x in formData && formData[x] != []
    ensures WithAmpersands(SignedLines(formData, keys + [k]))
         == WithAmpersands(SignedLines(formData, keys))
            + if Signed(formData, k) then "&" + k + "=" + formData[k][0] else ""
  {
    SignedLinesConcat(formData, keys, [k]);
    assert [k][1..] == [];
    var lines := SignedLines(formData, [k]);
    if Signed(formData, k) {
      var line := Line(k, formData[k][0]);
      assert lines == [line] && lines[1..] == [];
      assert WithAmpersands(lines) == "&" + line == "&" + k + "=" + formData[k][0];
    } else {
      assert lines == [];
    }
    WithAmpersandsConcat(SignedLines(formData, keys), lines);
  }

  lemma SortedEnumerationUnique(a: seq<string>, b: seq<string>, s: set<string>)
    requires Enumerates(a, s) && Sorted(a) && Enumerates(b, s) && Sorted(b)
    ensures a == b
  {
    EnumerationsPermute(a, b, s);
    SortedUnique(a, b);
  }

  /** Ranges over the keys of a map, in any order. */
  method RangeKeys(todo: set<string>) returns (keys: seq<string>)
    ensures Enumerates(keys, todo)
  {
    keys := [];
    var left := todo;
    while left != {}
      invariant left <= todo && Enumerates(keys, todo - left)
      decreases left
    {
      var k :| k in left;
      left := left - {k};
      keys := keys + [k];
    }
  }

  method Concatenate(formData: map<string, seq<string>>, keys: seq<string>) returns (str: string)
    requires forall k | k in keys :: k in formData && formData[k] != []
    ensures str == WithAmpersands(SignedLines(formData, keys))
  {
    str := "";
    for i := 0 to |keys|
      invariant forall k | k in keys[..i] :: k in formData && formData[k] != []
      invariant str == WithAmpersands(SignedLines(formData, keys[..i]))
    {
      var k := keys[i];
      NextLine(formData, keys[..i], k);
      assert keys[..i + 1] == keys[..i] + [k];
      if k == "sign" || formData[k][0] == "" {
        continue;
      } else {
        str := str + ("&" + k + "=" + formData[k][0]);
      }
    }
    assert keys[..|keys|] == keys;
  }

  /** A sorted order of the keys exists, and there is only one; so the string to sign depends on the map alone. */
  method GetStringToSign(formData: map<string, seq<string>>) returns (str: string)
    requires HasValues(formData)
    ensures exists keys :: Enumerates(keys, formData.Keys) && Sorted(keys)
    ensures forall keys | Enumerates(keys, formData.Keys) && Sorted(keys) :: str == StringToSign(formData, keys)
  {
    var keys := RangeKeys(formData.Keys);
    SortEnumerates(keys, formData.Keys);
    keys := Sort(keys);
    str := Concatenate(formData, keys);
    str := TrimRight(TrimLeft(str));
    forall other | Enumerates(other, formData.Keys) && Sorted(other)
      ensures other == keys
    {
      SortedEnumerationUnique(other, keys, formData.Keys);
    }
  }

  lemma SortEnumerates(keys: seq<string>, s: set<string>)
    requires Enumerates(keys, s)
    ensures Enumerates(Sort(keys), s) && Sorted(Sort(keys))
  {
    SortSorted(keys);
    PermutedEnumerates(keys, Sort(keys), s);
  }

  lemma {:induction false} WithAmpersandsJoin(lines: seq<string>)
    requires lines != []
    ensures WithAmpersands(lines) == "&" + Join(lines, '&')
  {
    if |lines| == 1 {
      assert lines[1..] == [];
    } else {
      WithAmpersandsJoin(lines[1..]);
      assert "&" + lines[0] + ("&" + Join(lines[1..], '&')) == "&" + (lines[0] + "&" + Join(lines[1..], '&'));
    }
  }

  lemma {:induction false} JoinEnds(lines: seq<string>)
    requires lines != [] && forall i | 0 <= i < |lines| :: |lines[i]| > 0
    ensures var j, last := Join(lines, '&'), lines[|lines| - 1];
            |j| > 0 && j[0] == lines[0][0] && j[|j| - 1] == last[|last| - 1]
  {
    if |lines| > 1 {
      JoinEnds(lines[1..]);
    }
  }

  lemma {:induction false} TrimRightShorter(s: string)
    ensures |TrimRight(s)| <= |s| && (s != "" && s[|s| - 1] == '&' ==> |TrimRight(s)| < |s|)
  {
    if s != "" && s[|s| - 1] == '&' {
      TrimRightShorter(s[..|s| - 1]);
    }
  }

  lemma {:induction false} TrimLeftShorter(s: string)
    ensures |TrimLeft(s)| <= |s| && (s != "" && s[0] == '&' ==> |TrimLeft(s)| < |s|)
    ensures TrimLeft(s) != "" ==> TrimLeft(s)[|TrimLeft(s)| - 1] == s[|s| - 1]
  {
    if s != "" && s[0] == '&' {
      TrimLeftShorter(s[1..]);
    }
  }

  /** Both trims together take away the first ampersand and nothing else if and only if the lines neither begin nor end with one. */
  lemma TrimKeepsLines(lines: seq<string>)
    requires forall i | 0 <= i < |lines| :: |lines[i]| > 0
    ensures TrimRight(TrimLeft(WithAmpersands(lines))) == Join(lines, '&')
       <==> lines == [] || (lines[0][0] != '&' && var last := lines[|lines| - 1]; last[|last| - 1] != '&')
  {
    if lines != [] {
      var j := Join(lines, '&');
      WithAmpersandsJoin(lines);
      JoinEnds(lines);
      assert ("&" + j)[1..] == j;
      TrimLeftShorter(j);
      TrimRightShorter(TrimLeft(j));
    }
  }

  /** The keys that are signed, in order. */
  function SignedKeys(formData: map<string, seq<string>>, keys: seq<string>): (signed: seq<string>)
    requires forall k | k in keys :: k in formData && formData[k] != []
    ensures forall k | k in signed :: k in keys && Signed(formData, k)
  {
    if keys == [] then []
    else (if Signed(formData, keys[0]) then [keys[0]] else []) + SignedKeys(formData, keys[1..])
  }

  lemma {:induction false} LinesOfSignedKeys(formData: map<string, seq<string>>, keys: seq<string>)
    requires forall k | k in keys :: k in formData && formData[k] != []
    ensures var lines, signed := SignedLines(formData, keys), SignedKeys(formData, keys);
            |lines| == |signed| && forall i | 0 <= i < |lines| :: lines[i] == Line(signed[i], formData[signed[i]][0])
  {
    if keys != [] {
      LinesOfSignedKeys(formData, keys[1..]);
    }
  }

  /** The keys that have to be signed: all that have a value but `sign`. */
  function ToSign(formData: map<string, seq<string>>): set<string>
    requires forall k | k in formData :: formData[k] != []
  {
    set k | k in formData && k != "sign" && formData[k][0] != ""
  }

  lemma {:induction false} SignedKeysInOrder(formData: map<string, seq<string>>, keys: seq<string>)
    requires forall k | k in keys :: k in formData && formData[k] != []
    requires Sorted(keys) && forall i, j | 0 <= i < j < |keys| :: keys[i] != keys[j]
    ensures var signed := SignedKeys(formData, keys);
            && Sorted(signed) && (forall i, j | 0 <= i < j < |signed| :: signed[i] != signed[j])
            && forall k :: k in signed <==> k in keys && k != "sign" && formData[k][0] != ""
  {
    if keys != [] {
      var first, rest := keys[0], keys[1..];
      assert forall i | 0 <= i < |rest| :: rest[i] == keys[i + 1];
      assert forall k :: k in keys <==> k == first || k in rest;
      SignedKeysInOrder(formData, rest);
      if Signed(formData, first) {
        PrependSorted(first, SignedKeys(formData, rest));
        PrependDistinct(first, SignedKeys(formData, rest));
      }
    }
  }

  lemma PrependDistinct(first: string, rest: seq<string>)
    requires first !in rest && forall i, j | 0 <= i < j < |rest| :: rest[i] != rest[j]
    ensures forall i, j | 0 <= i < j < |rest| + 1 :: ([first] + rest)[i] != ([first] + rest)[j]
  {
  }

  /** Every entry with a value has its line, in the order of the keys, but for `sign`; and nothing else has one. */
  lemma LinesToSign(formData: map<string, seq<string>>, keys: seq<string>, order: seq<string>)
    requires HasValues(formData) && Enumerates(keys, formData.Keys) && Sorted(keys)
    requires Enumerates(order, ToSign(formData)) && Sorted(order)
    ensures var lines := SignedLines(formData, keys);
            && |lines| == |order|
            && forall i | 0 <= i < |order| :: order[i] in formData && lines[i] == order[i] + "=" + formData[order[i]][0]
  {
    SignedKeysInOrder(formData, keys);
    LinesOfSignedKeys(formData, keys);
    SortedEnumerationUnique(SignedKeys(formData, keys), order, ToSign(formData));
  }

  lemma SameLines(a: map<string, seq<string>>, ka: seq<string>, b: map<string, seq<string>>, kb: seq<string>, order: seq<string>)
    requires HasValues(a) && Enumerates(ka, a.Keys) && Sorted(ka) && HasValues(b) && Enumerates(kb, b.Keys) && Sorted(kb)
    requires Enumerates(order, ToSign(a)) && Sorted(order) && ToSign(a) == ToSign(b)
    requires forall k | k in ToSign(a) :: k in a && k in b && a[k][0] == b[k][0]
    ensures SignedLines(a, ka) == SignedLines(b, kb)
  {
    LinesToSign(a, ka, order);
    LinesToSign(b, kb, order);
    var la, lb := SignedLines(a, ka), SignedLines(b, kb);
    forall i | 0 <= i < |la|
      ensures la[i] == lb[i]
    {
      assert order[i] in order;
    }
  }

  /**
    Two forms with the same values to sign have the same string to sign: adding or removing a signature, or an
    entry with an empty value, changes nothing.
   */
  lemma SignDependsOnValues(a: map<string, seq<string>>, ka: seq<string>, b: map<string, seq<string>>, kb: seq<string>)
    requires HasValues(a) && Enumerates(ka, a.Keys) && Sorted(ka) && HasValues(b) && Enumerates(kb, b.Keys) && Sorted(kb)
    requires forall k | k != "sign" :: (k in a && a[k][0] != "" ==> k in b && b[k][0] == a[k][0])
                                       && (k in b && b[k][0] != "" ==> k in a && a[k][0] == b[k][0])
    ensures StringToSign(a, ka) == StringToSign(b, kb)
  {
    var order := SignedKeys(a, ka);
    SignedKeysInOrder(a, ka);
    assert ToSign(a) == ToSign(b);
    SameLines(a, ka, b, kb, order);
  }

  predicate BeginsWithAmpersand(s: string) {
    s != "" && s[0] == '&'
  }

  predicate EndsWithAmpersand(s: string) {
    s != "" && s[|s| - 1] == '&'
  }

  /**
    The string to sign is the signed lines with ampersands between them if and only if the first signed key
    does not begin and the last signed value does not end with an ampersand.
   */
  lemma StringToSignJoins(formData: map<string, seq<string>>, keys: seq<string>)
    requires forall k | k in keys :: k in formData && formData[k] != []
    ensures var signed := SignedKeys(formData, keys);
            StringToSign(formData, keys) == Join(SignedLines(formData, keys), '&')
            <==> signed == [] || (!BeginsWithAmpersand(signed[0]) && !EndsWithAmpersand(formData[signed[|signed| - 1]][0]))
  {
    var signed := SignedKeys(formData, keys);
    LinesOfSignedKeys(formData, keys);
    SignedLinesTrim(formData, keys);
    if signed != [] {
      var last := signed[|signed| - 1];
      assert last in signed && Signed(formData, last);
      LineEnds(signed[0], formData[signed[0]][0]);
      LineEnds(last, formData[last][0]);
    }
  }

  lemma SignedLinesNotEmpty(formData: map<string, seq<string>>, keys: seq<string>)
    requires forall k | k in keys :: k in formData && formData[k] != []
    ensures forall i | 0 <= i < |SignedLines(formData, keys)| :: |SignedLines(formData, keys)[i]| > 0
  {
    LinesOfSignedKeys(formData, keys);
  }

  lemma SignedLinesTrim(formData: map<string, seq<string>>, keys: seq<string>)
    requires forall k | k in keys :: k in formData && formData[k] != []
    ensures var lines := SignedLines(formData, keys);
            StringToSign(formData, keys) == Join(lines, '&')
            <==> lines == [] || (!BeginsWithAmpersand(lines[0]) && !EndsWithAmpersand(lines[|lines| - 1]))
  {
    var lines := SignedLines(formData, keys);
    SignedLinesNotEmpty(formData, keys);
    TrimKeepsLines(lines);
    assert lines != [] ==> lines[0] != "" && lines[|lines| - 1] != "";
  }

  lemma LineEnds(key: string, value: string)
    ensures BeginsWithAmpersand(Line(key, value)) <==> BeginsWithAmpersand(key)
    ensures value != "" ==> (EndsWithAmpersand(Line(key, value)) <==> EndsWithAmpersand(value))
  {
  }

  // ---------- The identifier of a command request: two fixed parameters ----------

  /** The parameters in the order of their names. */
  method ParamString(params: map<string, string>) returns (paramString: string)
    ensures forall keys | Enumerates(keys, params.Keys) && Sorted(keys) ::
              paramString == Join(Apply(Render(params), keys), '&')
  {
    var keys := RangeKeys(params.Keys);
    SortEnumerates(keys, params.Keys);
    keys := Sort(keys);
    var paramParts: seq<string> := [];
    for i := 0 to |keys|
      invariant paramParts == Apply(Render(params), keys[..i])
    {
      assert keys[i] in keys && keys[i] in params;
      ApplyNext(Render(params), keys, i);
      paramParts := paramParts + [keys[i] + "=" + params[keys[i]]];
    }
    assert keys[..|keys|] == keys;
    paramString := Join(paramParts, '&');
    forall other | Enumerates(other, params.Keys) && Sorted(other)
      ensures other == keys
    {
      SortedEnumerationUnique(other, keys, params.Keys);
    }
  }

  lemma ParamsOfRequest(params: map<string, string>, keys: seq<string>)
    requires params.Keys == {"language", "args"} && Enumerates(keys, params.Keys) && Sorted(keys)
    ensures keys == ["args", "language"]
    ensures Join(Apply(Render(params), keys), '&') == Line("args", params["args"]) + "&" + Line("language", params["language"])
  {
    var expected := ["args", "language"];
    assert expected[0] == "args" && expected[1] == "language" && "args"[0] < "language"[0];
    assert AtMost("args", "language");
    SortedEnumerationUnique(keys, expected, params.Keys);
    var lines := Apply(Render(params), keys);
    assert lines[1..] == [lines[1]];
  }

  /** `sep` occurs in `s` at `p`. */
  predicate SeparatesAt(sep: string, s: string, p: nat) {
    p + |sep| <= |s| && s[p..p + |sep|] == sep
  }

  predicate Occurs(sep: string, s: string) {
    exists p: nat | p <= |s| :: SeparatesAt(sep, s, p)
  }

  /** A separator that does not begin again inside itself. */
  predicate IsSeparator(sep: string) {
    sep != "" && forall i | 0 < i < |sep| :: sep[i] != sep[0]
  }

  lemma SeparatorInside(sep: string, a: string, b: string, k: nat)
    ensures k < |sep| ==> (a + sep + b)[|a| + k] == sep[k]
  {
  }

  lemma LaterSplit(sep: string, a: string, b: string, a': string, b': string)
    requires IsSeparator(sep) && a + sep + b == a' + sep + b' && |a| < |a'|
    ensures SeparatesAt(sep, a', |a|)
    ensures |a'| - |a| >= |sep| && SeparatesAt(sep, b, |a'| - |a| - |sep|) && |b'| == |b| - |sep| - (|a'| - |a| - |sep|)
  {
    var t := a + sep + b;
    SeparatorInside(sep, a, b, |a'| - |a|);
    SeparatorInside(sep, a', b', 0);
    assert t[|a|..|a| + |sep|] == sep && a' == t[..|a'|];
    assert t[|a'|..|a'| + |sep|] == sep && b == t[|a| + |sep|..];
  }

  lemma Regroup(a: string, b: string, c: string, d: string, e: string)
    ensures (a + b + c) + d + e == a + b + (c + d + e)
  {
  }

  /** The separator occurs after the first character of `a`, or before the last one of `b`. */
  predicate OccursInside(sep: string, a: string, b: string)
    requires a != "" && b != ""
  {
    Occurs(sep, a[1..]) || Occurs(sep, b[..|b| - 1])
  }

  lemma EarlierSplit(sep: string, a: string, b: string, p: nat)
    requires a != "" && SeparatesAt(sep, a[1..], p) && sep != ""
    ensures exists a', b' :: a' != "" && b' != "" && a' + sep + b' == a + sep + b && a' != a
  {
    var a', rest := a[..p + 1], a[p + 1 + |sep|..];
    assert a[p + 1..p + 1 + |sep|] == a[1..][p..p + |sep|];
    assert a == a' + sep + rest;
    Regroup(a', sep, rest, sep, b);
    assert |a'| != |a|;
    assert |rest + sep + b| > 0;
  }

  lemma LaterSplitExists(sep: string, a: string, b: string, p: nat)
    requires a != "" && b != "" && SeparatesAt(sep, b[..|b| - 1], p) && sep != ""
    ensures exists a', b' :: a' != "" && b' != "" && a' + sep + b' == a + sep + b && a' != a
  {
    var front, b' := b[..p], b[p + |sep|..];
    assert b[p..p + |sep|] == b[..|b| - 1][p..p + |sep|];
    assert b == front + sep + b';
    Regroup(a, sep, front, sep, b');
    assert |a + sep + front| != |a|;
    assert |a + sep + front| > 0;
  }

  lemma InsideFirst(sep: string, a: string, b: string, a': string, b': string)
    requires IsSeparator(sep) && a' != "" && a' + sep + b' == a + sep + b && |a'| < |a|
    ensures Occurs(sep, a[1..])
  {
    LaterSplit(sep, a', b', a, b);
    assert a[1..][|a'| - 1..|a'| - 1 + |sep|] == a[|a'|..|a'| + |sep|];
    assert SeparatesAt(sep, a[1..], |a'| - 1);
  }

  lemma InsideSecond(sep: string, a: string, b: string, a': string, b': string)
    requires IsSeparator(sep) && b' != "" && a' + sep + b' == a + sep + b && |a| < |a'|
    ensures b != "" && Occurs(sep, b[..|b| - 1])
  {
    LaterSplit(sep, a, b, a', b');
    var p := |a'| - |a| - |sep|;
    assert b[..|b| - 1][p..p + |sep|] == b[p..p + |sep|];
    assert SeparatesAt(sep, b[..|b| - 1], p);
  }

  lemma SplitsNoOtherWay(sep: string, a: string, b: string, a': string, b': string)
    requires IsSeparator(sep) && a != "" && b != "" && !OccursInside(sep, a, b)
    requires a' != "" && b' != "" && a' + sep + b' == a + sep + b
    ensures a' == a && b' == b
  {
    var t := a + sep + b;
    if |a'| < |a| {
      InsideFirst(sep, a, b, a', b');
    } else if |a| < |a'| {
      InsideSecond(sep, a, b, a', b');
    } else {
      assert a == t[..|a|] && a' == t[..|a|] && b == t[|a| + |sep|..] && b' == t[|a| + |sep|..];
    }
  }

  /**
    Two texts that are not empty can be told apart again, as such, if and only if the separator between them
    occurs neither after the first character of the one nor before the last of the other.
   */
  lemma SplitsOnce(sep: string, a: string, b: string)
    requires IsSeparator(sep) && a != "" && b != ""
    ensures (forall a', b' :: a' != "" && b' != "" && a' + sep + b' == a + sep + b ==> a' == a && b' == b)
            <==> !OccursInside(sep, a, b)
  {
    var inA, inB := a[1..], b[..|b| - 1];
    if p: nat :| p <= |inA| && SeparatesAt(sep, inA, p) {
      EarlierSplit(sep, a, b, p);
    } else if p: nat :| p <= |inB| && SeparatesAt(sep, inB, p) {
      LaterSplitExists(sep, a, b, p);
    } else {
      forall a', b' | a' != "" && b' != "" && a' + sep + b' == a + sep + b
        ensures a' == a && b' == b
      {
        SplitsNoOtherWay(sep, a, b, a', b');
      }
    }
  }

  /** The parameters of a command request as they are hashed. */
  function RequestText(args: string, language: string): string {
    Line("args", args) + "&" + Line("language", language)
  }

  const LANGUAGE := "&language="

  lemma RequestTextSplits(args: string, language: string)
    ensures RequestText(args, language) == "args=" + (args + LANGUAGE + language)
  {
    assert LANGUAGE == "&" + "language" + "=";
  }

  lemma LanguageIsSeparator()
    ensures IsSeparator(LANGUAGE)
  {
  }

  /** The parameters that the handler accepts: both are there. */
  predicate IsRequest(args: string, language: string) {
    args != "" && language != ""
  }

  /**
    The text of a request determines it, among all that the handler accepts, if and only if the name of the
    second parameter stands neither after the first character of `args` nor before the last one of `language`.
   */
  lemma RequestTextDetermines(args: string, language: string)
    requires IsRequest(args, language)
    ensures (forall a, l :: IsRequest(a, l) && RequestText(a, l) == RequestText(args, language) ==> a == args && l == language)
            <==> !Occurs(LANGUAGE, args[1..]) && !Occurs(LANGUAGE, language[..|language| - 1])
  {
    LanguageIsSeparator();
    SplitsOnce(LANGUAGE, args, language);
    forall a, l
      ensures RequestText(a, l) == RequestText(args, language) <==> a + LANGUAGE + l == args + LANGUAGE + language
    {
      RequestTextSplits(a, l);
      RequestTextSplits(args, language);
      SameTail("args=", a + LANGUAGE + l, args + LANGUAGE + language);
    }
  }

  lemma SameTail(head: string, s: string, t: string)
    ensures head + s == head + t <==> s == t
  {
    assert (head + s)[|head|..] == s && (head + t)[|head|..] == t;
  }
}
