/** The order of strings, sorting, and enumerations of sets, as `sort.Strings` and `range` over a map need them. */
module StringOrder {

  /** Lexicographic order; a prefix comes first. */
  predicate AtMost(s: string, t: string) {
    s == "" || (t != "" && (s[0] < t[0] || (s[0] == t[0] && AtMost(s[1..], t[1..]))))
  }

  lemma {:induction false} Reflexive(s: string)
    ensures AtMost(s, s)
  {
    if s != "" {
      Reflexive(s[1..]);
    }
  }

  lemma {:induction false} Antisymmetric(s: string, t: string)
    requires AtMost(s, t) && AtMost(t, s)
    ensures s == t
  {
    if s != "" {
      Antisymmetric(s[1..], t[1..]);
      assert s == [s[0]] + s[1..] && t == [t[0]] + t[1..];
    }
  }

  lemma {:induction false} Transitive(s: string, t: string, u: string)
    requires AtMost(s, t) && AtMost(t, u)
    ensures AtMost(s, u)
  {
    if s != "" && s[0] == t[0] == u[0] {
      Transitive(s[1..], t[1..], u[1..]);
    }
  }

  lemma {:induction false} Total(s: string, t: string)
    ensures AtMost(s, t) || AtMost(t, s)
  {
    if s != "" && t != "" && s[0] == t[0] {
      Total(s[1..], t[1..]);
    }
  }

  ghost predicate Sorted(a: seq<string>) {
    forall i, j | 0 <= i < j < |a| :: AtMost(a[i], a[j])
  }

  /** Adding one string to a sorted list. */
  function Insert(x: string, a: seq<string>): (b: seq<string>)
    ensures multiset(b) == multiset(a) + multiset{x}
  {
    if a == [] then [x]
    else if AtMost(x, a[0]) then [x] + a
    else
      assert a == [a[0]] + a[1..];
      [a[0]] + Insert(x, a[1..])
  }

  function Sort(a: seq<string>): (b: seq<string>)
    ensures multiset(b) == multiset(a)
  {
    if a == [] then []
    else
      assert a == [a[0]] + a[1..];
      Insert(a[0], Sort(a[1..]))
  }

  lemma {:induction false} InsertSorted(x: string, a: seq<string>)
    requires Sorted(a)
    ensures Sorted(Insert(x, a))
  {
    if a != [] {
      if AtMost(x, a[0]) {
        forall j | 0 <= j < |a|
          ensures AtMost(x, a[j])
        {
          if j > 0 {
            Transitive(x, a[0], a[j]);
          }
        }
      } else {
        var rest := Insert(x, a[1..]);
        InsertSorted(x, a[1..]);
        Total(x, a[0]);
        forall y | y in rest
          ensures AtMost(a[0], y)
        {
          assert y in multiset(rest);
          if y != x {
            assert y in a[1..];
          }
        }
      }
    }
  }

  lemma {:induction false} SortSorted(a: seq<string>)
    ensures Sorted(Sort(a))
  {
    if a != [] {
      SortSorted(a[1..]);
      InsertSorted(a[0], Sort(a[1..]));
    }
  }

  lemma FirstIsLeast(a: seq<string>, x: string)
    requires Sorted(a) && x in a
    ensures AtMost(a[0], x)
  {
    Reflexive(a[0]);
    var i :| 0 <= i < |a| && a[i] == x;
  }

  lemma TakeFirst(a: seq<string>)
    requires a != []
    ensures multiset(a) == multiset{a[0]} + multiset(a[1..]) && a[0] in multiset(a)
  {
    assert a == [a[0]] + a[1..];
  }

  lemma SameFirst(a: seq<string>, b: seq<string>)
    requires Sorted(a) && Sorted(b) && multiset(a) == multiset(b) && a != [] && b != []
    ensures a[0] == b[0]
  {
    assert a[0] in multiset(b) && b[0] in multiset(a);
    FirstIsLeast(a, b[0]);
    FirstIsLeast(b, a[0]);
    Antisymmetric(a[0], b[0]);
  }

  lemma SameRest(a: seq<string>, b: seq<string>)
    requires a != [] && b != [] && a[0] == b[0] && multiset(a) == multiset(b)
    ensures multiset(a[1..]) == multiset(b[1..])
  {
    TakeFirst(a);
    TakeFirst(b);
    assert multiset(a[1..]) == multiset(a) - multiset{a[0]} && multiset(b[1..]) == multiset(b) - multiset{b[0]};
  }

  lemma SameLength(a: seq<string>, b: seq<string>)
    requires multiset(a) == multiset(b)
    ensures |a| == |b|
  {
    assert |multiset(a)| == |a| && |multiset(b)| == |b|;
  }

  /** A list has one sorted order only. */
  lemma {:induction false} SortedUnique(a: seq<string>, b: seq<string>)
    requires Sorted(a) && Sorted(b) && multiset(a) == multiset(b)
    ensures a == b
  {
    SameLength(a, b);
    if a != [] {
      SameFirst(a, b);
      SameRest(a, b);
      SortedUnique(a[1..], b[1..]);
      assert a == [a[0]] + a[1..] && b == [b[0]] + b[1..];
    }
  }

  // ---------- Enumerating a set ----------

  /** `keys` names every element of the set once: an order in which a range over a map may go. */
  ghost predicate Enumerates(keys: seq<string>, s: set<string>) {
    && (forall i, j | 0 <= i < j < |keys| :: keys[i] != keys[j])
    && (forall k :: k in keys <==> k in s)
  }

  lemma {:induction false} CountOfDistinct(keys: seq<string>, k: string)
    requires forall i, j | 0 <= i < j < |keys| :: keys[i] != keys[j]
    ensures multiset(keys)[k] == if k in keys then 1 else 0
  {
    if keys != [] {
      TakeFirst(keys);
      CountOfDistinct(keys[1..], k);
      assert k in keys <==> k == keys[0] || k in keys[1..];
    }
  }

  /** Two orders of a range over the same map are rearrangements of each other. */
  lemma EnumerationsPermute(a: seq<string>, b: seq<string>, s: set<string>)
    requires Enumerates(a, s) && Enumerates(b, s)
    ensures multiset(a) == multiset(b)
  {
    forall k
      ensures multiset(a)[k] == multiset(b)[k]
    {
      CountOfDistinct(a, k);
      CountOfDistinct(b, k);
    }
  }

  function Apply(f: string -> string, keys: seq<string>): (r: seq<string>)
    ensures |r| == |keys| && forall i | 0 <= i < |keys| :: r[i] == f(keys[i])
  {
    seq(|keys|, i requires 0 <= i < |keys| => f(keys[i]))
  }

  lemma ApplyNext(f: string -> string, a: seq<string>, i: nat)
    requires i < |a|
    ensures Apply(f, a[..i + 1]) == Apply(f, a[..i]) + [f(a[i])]
  {
  }

  lemma DropAt(b: seq<string>, i: nat)
    requires i < |b|
    ensures multiset(b) == multiset{b[i]} + multiset(b[..i] + b[i + 1..])
  {
    assert b == b[..i] + [b[i]] + b[i + 1..];
  }

  lemma ApplyDropAt(f: string -> string, b: seq<string>, i: nat)
    requires i < |b|
    ensures Apply(f, b[..i] + b[i + 1..]) == Apply(f, b)[..i] + Apply(f, b)[i + 1..]
  {
  }

  /** Reordering the keys reorders their images. */
  lemma {:induction false} ApplyPermutes(f: string -> string, a: seq<string>, b: seq<string>)
    requires multiset(a) == multiset(b)
    ensures multiset(Apply(f, a)) == multiset(Apply(f, b))
  {
    if a == [] {
      assert |multiset(a)| == |a| && |multiset(b)| == |b|;
    } else {
      TakeFirst(a);
      assert a[0] in b;
      var i :| 0 <= i < |b| && b[i] == a[0];
      var b' := b[..i] + b[i + 1..];
      DropAt(b, i);
      assert multiset(a[1..]) == multiset(a) - multiset{a[0]} == multiset(b');
      ApplyPermutes(f, a[1..], b');
      TakeFirst(Apply(f, a));
      assert Apply(f, a)[1..] == Apply(f, a[1..]);
      DropAt(Apply(f, b), i);
      ApplyDropAt(f, b, i);
    }
  }

  lemma ApplyFirst(f: string -> string, k: string, rest: seq<string>)
    ensures Apply(f, [k] + rest) == [f(k)] + Apply(f, rest)
  {
  }

  lemma InsertFirst(f: string -> string, k: string, order: seq<string>)
    requires order == [] || AtMost(f(k), f(order[0]))
    ensures Apply(f, [k] + order) == Insert(f(k), Apply(f, order))
  {
    ApplyFirst(f, k, order);
  }

  lemma InsertAfter(f: string -> string, k: string, order: seq<string>, longer: seq<string>)
    requires order != [] && !AtMost(f(k), f(order[0])) && Apply(f, longer) == Insert(f(k), Apply(f, order[1..]))
    ensures Apply(f, [order[0]] + longer) == Insert(f(k), Apply(f, order))
  {
    ApplyFirst(f, order[0], longer);
    assert Apply(f, order)[1..] == Apply(f, order[1..]);
  }

  lemma PrependMore(order: seq<string>, k: string, longer: seq<string>)
    requires order != [] && multiset(longer) == multiset(order[1..]) + multiset{k}
    ensures multiset([order[0]] + longer) == multiset(order) + multiset{k}
  {
    TakeFirst(order);
  }

  lemma {:induction false} InsertOrder(f: string -> string, k: string, order: seq<string>) returns (longer: seq<string>)
    ensures Apply(f, longer) == Insert(f(k), Apply(f, order)) && multiset(longer) == multiset(order) + multiset{k}
  {
    if order == [] || AtMost(f(k), f(order[0])) {
      InsertFirst(f, k, order);
      longer := [k] + order;
    } else {
      var rest := InsertOrder(f, k, order[1..]);
      InsertAfter(f, k, order, rest);
      PrependMore(order, k, rest);
      longer := [order[0]] + rest;
    }
  }

  /** The keys in the order of their sorted images. */
  lemma {:induction false} SortOrder(f: string -> string, keys: seq<string>) returns (order: seq<string>)
    ensures Apply(f, order) == Sort(Apply(f, keys)) && multiset(order) == multiset(keys)
  {
    order := [];
    if keys != [] {
      TakeFirst(keys);
      order := SortOrder(f, keys[1..]);
      order := InsertOrder(f, keys[0], order);
      assert Apply(f, keys)[1..] == Apply(f, keys[1..]);
    }
  }

  /** A list with one more at its end is sorted exactly if the list is, and the last one comes after all others. */
  lemma SortedAppend(lines: seq<string>, x: string)
    ensures Sorted(lines + [x]) <==> Sorted(lines) && forall i | 0 <= i < |lines| :: AtMost(lines[i], x)
  {
    var all := lines + [x];
    assert forall i | 0 <= i < |lines| :: all[i] == lines[i];
    if Sorted(all) {
      forall i | 0 <= i < |lines|
        ensures AtMost(lines[i], x)
      {
        assert AtMost(all[i], all[|lines|]);
      }
    }
  }

  lemma {:induction false} LongerIsLater(s: string, rest: string)
    ensures AtMost(s, s + rest)
  {
    if s != "" {
      LongerIsLater(s[1..], rest);
      assert (s + rest)[1..] == s[1..] + rest;
    }
  }

  lemma TwoOccurrences(a: seq<string>, i: nat, j: nat)
    requires i < j < |a| && a[i] == a[j]
    ensures multiset(a)[a[i]] >= 2
  {
    assert a == a[..i] + [a[i]] + a[i + 1..j] + [a[j]] + a[j + 1..];
  }

  /** A rearrangement of an enumeration is one. */
  lemma PermutedEnumerates(a: seq<string>, b: seq<string>, s: set<string>)
    requires Enumerates(a, s) && multiset(a) == multiset(b)
    ensures Enumerates(b, s)
  {
    forall k
      ensures k in b <==> k in a
    {
      assert k in multiset(b) <==> k in multiset(a);
    }
    forall i, j | 0 <= i < j < |b|
      ensures b[i] != b[j]
    {
      if b[i] == b[j] {
        TwoOccurrences(b, i, j);
        CountOfDistinct(a, b[i]);
      }
    }
  }

  // ---------- The keys of a map in order ----------

  lemma {:induction false} LeastExists(s: set<string>) returns (m: string)
    requires s != {}
    ensures m in s && forall x | x in s :: AtMost(m, x)
  {
    var first :| first in s;
    var rest := s - {first};
    m := first;
    Reflexive(first);
    if rest != {} {
      var other := LeastExists(rest);
      Total(first, other);
      m := if AtMost(first, other) then first else other;
      forall x | x in rest
        ensures AtMost(m, x)
      {
        if m == first {
          Transitive(first, other, x);
        }
      }
    }
    assert forall x | x in s :: x == first || x in rest;
  }

  lemma LeastIsUnique(s: set<string>)
    requires s != {}
    ensures exists m :: m in s && forall x | x in s :: AtMost(m, x)
    ensures forall m, n | m in s && n in s && (forall x | x in s :: AtMost(m, x)) && (forall x | x in s :: AtMost(n, x)) ::
              m == n
  {
    var least := LeastExists(s);
    forall m, n | m in s && n in s && (forall x | x in s :: AtMost(m, x)) && (forall x | x in s :: AtMost(n, x))
      ensures m == n
    {
      Antisymmetric(m, n);
    }
  }

  /** The elements of a set in order. */
  function SortedKeys(s: set<string>): (keys: seq<string>)
    ensures |keys| == |s| && forall k :: k in keys <==> k in s
  {
    if s == {} then []
    else
      LeastIsUnique(s);
      var least :| least in s && forall x | x in s :: AtMost(least, x);
      [least] + SortedKeys(s - {least})
  }

  lemma SortedKeysSplit(s: set<string>)
    requires s != {}
    ensures var keys := SortedKeys(s);
            && keys[0] in s && keys[1..] == SortedKeys(s - {keys[0]})
            && forall x | x in s :: AtMost(keys[0], x)
  {
    LeastIsUnique(s);
  }

  lemma PrependSorted(least: string, keys: seq<string>)
    requires Sorted(keys) && forall k | k in keys :: AtMost(least, k)
    ensures Sorted([least] + keys)
  {
    forall i, j | 0 <= i < j < |keys| + 1
      ensures AtMost(([least] + keys)[i], ([least] + keys)[j])
    {
      assert keys[j - 1] in keys;
    }
  }

  lemma PrependEnumerates(least: string, keys: seq<string>, s: set<string>)
    requires least in s && Enumerates(keys, s - {least})
    ensures Enumerates([least] + keys, s)
  {
    forall i, j | 0 <= i < j < |keys| + 1
      ensures ([least] + keys)[i] != ([least] + keys)[j]
    {
      assert keys[j - 1] in keys;
    }
    forall k
      ensures k in [least] + keys <==> k in s
    {
      assert k in [least] + keys <==> k == least || k in keys;
    }
  }

  lemma {:induction false} SortedKeysInOrder(s: set<string>)
    ensures Sorted(SortedKeys(s)) && Enumerates(SortedKeys(s), s)
  {
    if s != {} {
      var keys := SortedKeys(s);
      SortedKeysSplit(s);
      SortedKeysInOrder(s - {keys[0]});
      PrependSorted(keys[0], keys[1..]);
      PrependEnumerates(keys[0], keys[1..], s);
      assert keys == [keys[0]] + keys[1..];
    }
  }
}
