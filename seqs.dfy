/**
 * Sequence utilities shared by the search page, the charts and the export:
 * the JavaScript array idioms the components are built from (filter, reduce
 * into sums, `new Set` spread, `join`/`split`, a stable `sort`, `slice`,
 * number-to-string), each defined once with its properties.
 */
module Seqs {

  // ---------------------------------------------------------------------
  // filter, sums, slices

  /** `s.filter(keep)`: the kept elements, in their original order. */
  function Filter<T>(s: seq<T>, keep: T -> bool): (r: seq<T>)
    ensures |r| <= |s|
    ensures forall i :: 0 <= i < |r| ==> r[i] in s && keep(r[i])
    ensures forall i :: 0 <= i < |s| && keep(s[i]) ==> s[i] in r
  {
    if s == [] then []
    else (if keep(s[0]) then [s[0]] else []) + Filter(s[1..], keep)
  }

  /** Filtering distributes over concatenation: the relative order of the kept elements is that of `s`. */
  lemma {:induction false} FilterAppend<T>(a: seq<T>, b: seq<T>, keep: T -> bool)
    ensures Filter(a + b, keep) == Filter(a, keep) + Filter(b, keep)
  {
    if a != [] {
      assert (a + b)[0] == a[0] && (a + b)[1..] == a[1..] + b;
      FilterAppend(a[1..], b, keep);
    } else {
      assert a + b == b;
    }
  }

  /** Filtering keeps everything when every element is kept. */
  lemma {:induction false} FilterAll<T>(s: seq<T>, keep: T -> bool)
    requires forall i :: 0 <= i < |s| ==> keep(s[i])
    ensures Filter(s, keep) == s
  {
    if s != [] {
      FilterAll(s[1..], keep);
    }
  }

  /** `s.reduce((sum, x) => sum + f(x), 0)`. */
  function Sum<T>(s: seq<T>, f: T -> nat): nat
  {
    if s == [] then 0 else f(s[0]) + Sum(s[1..], f)
  }

  lemma {:induction false} SumAppend<T>(a: seq<T>, b: seq<T>, f: T -> nat)
    ensures Sum(a + b, f) == Sum(a, f) + Sum(b, f)
  {
    if a != [] {
      assert (a + b)[0] == a[0] && (a + b)[1..] == a[1..] + b;
      SumAppend(a[1..], b, f);
    } else {
      assert a + b == b;
    }
  }

  /** A sum does not depend on the order of the elements. */
  lemma {:induction false} SumPermutation<T>(a: seq<T>, b: seq<T>, f: T -> nat)
    requires multiset(a) == multiset(b)
    ensures Sum(a, f) == Sum(b, f)
    decreases |a|
  {
    if a != [] {
      assert a[0] in multiset(b);
      var k :| 0 <= k < |b| && b[k] == a[0];
      assert a == [a[0]] + a[1..];
      assert multiset(a[1..]) == multiset(a) - multiset{a[0]};
      RemoveAt(b, k, f);
      SumPermutation(a[1..], b[..k] + b[k + 1..], f);
    }
  }

  /** Taking out the element at `k` removes it once from the multiset and its value from the sum. */
  lemma RemoveAt<T>(b: seq<T>, k: nat, f: T -> nat)
    requires k < |b|
    ensures multiset(b[..k] + b[k + 1..]) == multiset(b) - multiset{b[k]}
    ensures Sum(b, f) == f(b[k]) + Sum(b[..k] + b[k + 1..], f)
  {
    RemoveAtMultiset(b, k);
    RemoveAtSum(b, k, f);
  }

  lemma RemoveAtMultiset<T>(b: seq<T>, k: nat)
    requires k < |b|
    ensures multiset(b[..k] + b[k + 1..]) == multiset(b) - multiset{b[k]}
  {
    assert b == b[..k] + ([b[k]] + b[k + 1..]);
    MultisetSplit(b[..k], b[k], b[k + 1..]);
  }

  lemma RemoveAtSum<T>(b: seq<T>, k: nat, f: T -> nat)
    requires k < |b|
    ensures Sum(b, f) == f(b[k]) + Sum(b[..k] + b[k + 1..], f)
  {
    assert b == b[..k] + ([b[k]] + b[k + 1..]);
    SumSplit(b[..k], b[k], b[k + 1..], f);
  }

  lemma MultisetSplit<T>(p: seq<T>, x: T, q: seq<T>)
    ensures multiset(p + q) == multiset(p + ([x] + q)) - multiset{x}
  {
    assert multiset(p + ([x] + q)) == multiset(p) + multiset([x] + q);
    assert multiset([x] + q) == multiset{x} + multiset(q);
    assert multiset(p + q) == multiset(p) + multiset(q);
  }

  lemma SumSplit<T>(p: seq<T>, x: T, q: seq<T>, f: T -> nat)
    ensures Sum(p + ([x] + q), f) == f(x) + Sum(p + q, f)
  {
    SumAppend(p, [x] + q, f);
    SumAppend([x], q, f);
    SumOne(x, f);
    SumAppend(p, q, f);
  }

  /** `s.slice(0, n)`. */
  function Take<T>(s: seq<T>, n: nat): (r: seq<T>)
    ensures |r| == if |s| <= n then |s| else n
    ensures r == s[..|r|]
  {
    if |s| <= n then s else s[..n]
  }

  /** `s.slice(-n)` for n > 0: the last n elements, or all of them. */
  function TakeLast<T>(s: seq<T>, n: nat): (r: seq<T>)
    ensures |r| == if |s| <= n then |s| else n
    ensures r == s[|s| - |r|..]
  {
    if |s| <= n then s else s[|s| - n..]
  }

  // ---------------------------------------------------------------------
  // `[...new Set(s)]`: distinct elements in first-appearance order

  predicate NoDuplicates<T(==)>(s: seq<T>)
  {
    forall i, j :: 0 <= i < j < |s| ==> s[i] != s[j]
  }

  /** Each element of `s` once, in the order of its first appearance. */
  function Distinct<T(==)>(s: seq<T>): (r: seq<T>)
    ensures forall i :: 0 <= i < |r| ==> r[i] in s
    ensures forall i :: 0 <= i < |s| ==> s[i] in r
    ensures NoDuplicates(r)
    ensures |r| <= |s|
  {
    if s == [] then []
    else
      var d := Distinct(s[..|s| - 1]);
      if s[|s| - 1] in d then d else d + [s[|s| - 1]]
  }

  /** The index of the first occurrence of `x` in `s`. */
  function FirstIndex<T(==)>(s: seq<T>, x: T): (k: nat)
    requires x in s
    ensures k < |s| && s[k] == x && x !in s[..k]
  {
    if s[0] == x then 0 else 1 + FirstIndex(s[1..], x)
  }

  lemma {:induction false} FirstIndexInPrefix<T>(s: seq<T>, n: nat, x: T)
    requires n <= |s| && x in s[..n]
    ensures x in s && FirstIndex(s, x) == FirstIndex(s[..n], x)
  {
    if s[0] != x {
      assert s[..n][1..] == s[1..][..n - 1];
      FirstIndexInPrefix(s[1..], n - 1, x);
    }
  }

  /** The elements of `Distinct(s)` appear in the order of their first occurrence in `s`. */
  lemma {:induction false} DistinctInFirstAppearanceOrder<T>(s: seq<T>)
    ensures forall i, j :: 0 <= i < j < |Distinct(s)| ==>
      FirstIndex(s, Distinct(s)[i]) < FirstIndex(s, Distinct(s)[j])
  {
    if s != [] {
      var n := |s| - 1;
      var p := s[..n];
      var d := Distinct(p);
      DistinctInFirstAppearanceOrder(p);
      forall y | y in d
        ensures FirstIndex(s, y) == FirstIndex(p, y) < n
      {
        FirstIndexInPrefix(s, n, y);
      }
      if s[n] !in d {
        assert s[n] !in p;
        forall i | 0 <= i < n
          ensures s[i] != s[n]
        {
          assert p[i] == s[i];
        }
      }
    }
  }

  /** The number of distinct elements is the size of the set of elements. */
  lemma {:induction false} DistinctCardinality<T>(s: seq<T>)
    ensures |Distinct(s)| == |set x | x in s|
  {
    if s == [] {
      assert (set x | x in s) == {};
    } else {
      var n := |s| - 1;
      var p := s[..n];
      DistinctCardinality(p);
      assert s == p + [s[n]];
      if s[n] in Distinct(p) {
        assert (set x | x in s) == (set x | x in p);
      } else {
        assert (set x | x in s) == (set x | x in p) + {s[n]};
      }
    }
  }

  // ---------------------------------------------------------------------
  // Group-by with a count and a total: the `reduce` accumulators of the
  // charts, which look an entry up by key and bump it or append a new one

  datatype Group<K> = Group(key: K, count: nat, total: nat)

  /** The keys of the items, in order. */
  function Keys<K>(items: seq<(K, nat)>): (r: seq<K>)
    ensures |r| == |items|
  {
    seq(|items|, i requires 0 <= i < |items| => items[i].0)
  }

  /** The keys of the groups, in order. */
  function GroupKeys<K>(groups: seq<Group<K>>): (r: seq<K>)
    ensures |r| == |groups|
  {
    seq(|groups|, i requires 0 <= i < |groups| => groups[i].key)
  }

  /** One step of the reduce: count the item in the first group with its key, or append a new group. */
  function Bump<K(==)>(groups: seq<Group<K>>, key: K, weight: nat): seq<Group<K>>
  {
    if groups == [] then [Group(key, 1, weight)]
    else if groups[0].key == key then [Group(key, groups[0].count + 1, groups[0].total + weight)] + groups[1..]
    else [groups[0]] + Bump(groups[1..], key, weight)
  }

  /** The result of the reduce over the items, left to right. */
  function Tally<K(==)>(items: seq<(K, nat)>): seq<Group<K>>
  {
    if items == [] then []
    else Bump(Tally(items[..|items| - 1]), items[|items| - 1].0, items[|items| - 1].1)
  }

  /** How many items carry the key. */
  function Occurrences<K(==)>(items: seq<(K, nat)>, key: K): nat
  {
    if items == [] then 0
    else Occurrences(items[..|items| - 1], key) + (if items[|items| - 1].0 == key then 1 else 0)
  }

  /** The sum of the weights of the items that carry the key. */
  function WeightOf<K(==)>(items: seq<(K, nat)>, key: K): nat
  {
    if items == [] then 0
    else WeightOf(items[..|items| - 1], key) + (if items[|items| - 1].0 == key then items[|items| - 1].1 else 0)
  }

  /** The sum of all the weights. */
  function TotalWeight<K>(items: seq<(K, nat)>): nat
  {
    if items == [] then 0 else TotalWeight(items[..|items| - 1]) + items[|items| - 1].1
  }

  /** The count and the total held for a key across the groups (zero when absent). */
  function CountOf<K(==)>(groups: seq<Group<K>>, key: K): nat
  {
    if groups == [] then 0 else (if groups[0].key == key then groups[0].count else 0) + CountOf(groups[1..], key)
  }

  function TotalOf<K(==)>(groups: seq<Group<K>>, key: K): nat
  {
    if groups == [] then 0 else (if groups[0].key == key then groups[0].total else 0) + TotalOf(groups[1..], key)
  }

  function SumCounts<K>(groups: seq<Group<K>>): nat
  {
    if groups == [] then 0 else groups[0].count + SumCounts(groups[1..])
  }

  function SumTotals<K>(groups: seq<Group<K>>): nat
  {
    if groups == [] then 0 else groups[0].total + SumTotals(groups[1..])
  }

  lemma {:induction false} BumpKeys<K>(groups: seq<Group<K>>, key: K, weight: nat)
    ensures GroupKeys(Bump(groups, key, weight)) ==
      if key in GroupKeys(groups) then GroupKeys(groups) else GroupKeys(groups) + [key]
  {
    if groups != [] && groups[0].key != key {
      BumpKeys(groups[1..], key, weight);
      assert GroupKeys(groups) == [groups[0].key] + GroupKeys(groups[1..]);
      assert GroupKeys(Bump(groups, key, weight)) == [groups[0].key] + GroupKeys(Bump(groups[1..], key, weight));
    } else if groups != [] {
      assert GroupKeys(groups)[0] == key;
    }
  }

  lemma {:induction false} BumpCounts<K>(groups: seq<Group<K>>, key: K, weight: nat, k: K)
    ensures CountOf(Bump(groups, key, weight), k) == CountOf(groups, k) + (if k == key then 1 else 0)
    ensures TotalOf(Bump(groups, key, weight), k) == TotalOf(groups, k) + (if k == key then weight else 0)
    ensures SumCounts(Bump(groups, key, weight)) == SumCounts(groups) + 1
    ensures SumTotals(Bump(groups, key, weight)) == SumTotals(groups) + weight
  {
    if groups != [] {
      var b := Bump(groups, key, weight);
      if groups[0].key == key {
        assert b[1..] == groups[1..];
      } else {
        assert b[1..] == Bump(groups[1..], key, weight);
        BumpCounts(groups[1..], key, weight, k);
      }
    }
  }

  /**
   * What the reduce builds: one group per distinct key, in first-appearance
   * order, whose count is the number of items with that key and whose total
   * is the sum of their weights; the counts add up to the number of items and
   * the totals to the sum of all weights.
   */
  lemma TallyCorrect<K>(items: seq<(K, nat)>)
    ensures GroupKeys(Tally(items)) == Distinct(Keys(items))
    ensures forall k :: CountOf(Tally(items), k) == Occurrences(items, k)
    ensures forall k :: TotalOf(Tally(items), k) == WeightOf(items, k)
    ensures SumCounts(Tally(items)) == |items|
    ensures SumTotals(Tally(items)) == TotalWeight(items)
  {
    TallyKeys(items);
    TallySums(items);
  }

  lemma {:induction false} TallyKeys<K>(items: seq<(K, nat)>)
    ensures GroupKeys(Tally(items)) == Distinct(Keys(items))
  {
    if items != [] {
      var n := |items| - 1;
      var p := items[..n];
      TallyKeys(p);
      BumpKeys(Tally(p), items[n].0, items[n].1);
      KeysPrefix(items);
    }
  }

  lemma KeysPrefix<K>(items: seq<(K, nat)>)
    requires items != []
    ensures Keys(items)[..|items| - 1] == Keys(items[..|items| - 1])
    ensures Keys(items)[|items| - 1] == items[|items| - 1].0
  {
  }

  lemma {:induction false} TallySums<K>(items: seq<(K, nat)>)
    ensures forall k :: CountOf(Tally(items), k) == Occurrences(items, k)
    ensures forall k :: TotalOf(Tally(items), k) == WeightOf(items, k)
    ensures SumCounts(Tally(items)) == |items|
    ensures SumTotals(Tally(items)) == TotalWeight(items)
  {
    if items != [] {
      var n := |items| - 1;
      var p := items[..n];
      TallySums(p);
      forall k {
        BumpCounts(Tally(p), items[n].0, items[n].1, k);
      }
      BumpCounts(Tally(p), items[n].0, items[n].1, items[n].0);
    }
  }

  /** With distinct keys, the group at an index holds all of its key's count and total. */
  lemma {:induction false} GroupAt<K>(groups: seq<Group<K>>, i: nat)
    requires NoDuplicates(GroupKeys(groups)) && i < |groups|
    ensures CountOf(groups, groups[i].key) == groups[i].count
    ensures TotalOf(groups, groups[i].key) == groups[i].total
  {
    var ks := GroupKeys(groups);
    assert GroupKeys(groups[1..]) == ks[1..];
    if i == 0 {
      forall j | 0 <= j < |ks| - 1
        ensures ks[1..][j] != groups[0].key
      {
        assert ks[1..][j] == ks[j + 1] && ks[0] == groups[0].key;
      }
      AbsentKey(groups[1..], groups[0].key);
    } else {
      assert groups[0].key != groups[i].key by { assert ks[0] != ks[i]; }
      GroupAt(groups[1..], i - 1);
    }
  }

  lemma {:induction false} AbsentKey<K>(groups: seq<Group<K>>, k: K)
    requires k !in GroupKeys(groups)
    ensures CountOf(groups, k) == 0 && TotalOf(groups, k) == 0
  {
    if groups != [] {
      assert GroupKeys(groups)[0] == groups[0].key;
      assert GroupKeys(groups[1..]) == GroupKeys(groups)[1..];
      AbsentKey(groups[1..], k);
    }
  }

  /** Locating the first group with the key and updating it in place is one step of the reduce. */
  lemma {:induction false} BumpAt<K>(groups: seq<Group<K>>, key: K, weight: nat, j: nat)
    requires j <= |groups|
    requires forall m :: 0 <= m < j ==> groups[m].key != key
    requires j < |groups| ==> groups[j].key == key
    ensures Bump(groups, key, weight) ==
      if j < |groups| then groups[j := Group(key, groups[j].count + 1, groups[j].total + weight)]
      else groups + [Group(key, 1, weight)]
  {
    if j > 0 {
      var rest := groups[1..];
      assert groups == [groups[0]] + rest;
      assert Bump(groups, key, weight) == [groups[0]] + Bump(rest, key, weight);
      BumpAt(rest, key, weight, j - 1);
      if j < |groups| {
        var g := Group(key, groups[j].count + 1, groups[j].total + weight);
        assert rest[j - 1] == groups[j];
        assert [groups[0]] + rest[j - 1 := g] == groups[j := g];
      } else {
        assert [groups[0]] + (rest + [Group(key, 1, weight)]) == groups + [Group(key, 1, weight)];
      }
    }
  }

  /**
   * The reduce as the components run it: for each item, search the
   * accumulator for an entry with the item's key; bump it in place when found,
   * otherwise push a new entry.
   */
  method TallyInto<K(==)>(items: seq<(K, nat)>) returns (groups: seq<Group<K>>)
    ensures groups == Tally(items)
  {
    groups := [];
    for i := 0 to |items|
      invariant groups == Tally(items[..i])
    {
      var (key, weight) := items[i];
      var j := 0;
      while j < |groups| && groups[j].key != key
        invariant 0 <= j <= |groups|
        invariant forall m :: 0 <= m < j ==> groups[m].key != key
      {
        j := j + 1;
      }
      BumpAt(groups, key, weight, j);
      if j < |groups| {
        groups := groups[j := Group(key, groups[j].count + 1, groups[j].total + weight)];
      } else {
        groups := groups + [Group(key, 1, weight)];
      }
      assert items[..i + 1][..i] == items[..i];
    }
    assert items[..|items|] == items;
  }

  // ---------------------------------------------------------------------
  // The group-by as the charts use it: items drawn from a sequence by a key
  // and a weight, compared with filtering the sequence by key

  /** `s.map(f)`. */
  function Map<T, U>(s: seq<T>, f: T -> U): (r: seq<U>)
    ensures |r| == |s|
    ensures forall i :: 0 <= i < |s| ==> r[i] == f(s[i])
  {
    seq(|s|, i requires 0 <= i < |s| => f(s[i]))
  }

  /** A value is in `s.filter(keep).map(f)` exactly when some kept element maps to it. */
  lemma FilterMapMembership<T, U>(s: seq<T>, keep: T -> bool, f: T -> U, x: U)
    ensures x in Map(Filter(s, keep), f) <==> exists i :: 0 <= i < |s| && keep(s[i]) && f(s[i]) == x
  {
    var kept := Filter(s, keep);
    var mapped := Map(kept, f);
    if x in mapped {
      var j :| 0 <= j < |mapped| && mapped[j] == x;
      var i :| 0 <= i < |s| && s[i] == kept[j];
      assert keep(s[i]) && f(s[i]) == x;
    }
    if exists i :: 0 <= i < |s| && keep(s[i]) && f(s[i]) == x {
      var i :| 0 <= i < |s| && keep(s[i]) && f(s[i]) == x;
      var j :| 0 <= j < |kept| && kept[j] == s[i];
      assert mapped[j] == x;
    }
  }

  /** The (key, weight) item of every element. */
  function Pairs<T, K>(s: seq<T>, key: T -> K, weight: T -> nat): (r: seq<(K, nat)>)
    ensures |r| == |s|
    ensures forall i :: 0 <= i < |s| ==> r[i] == (key(s[i]), weight(s[i]))
  {
    seq(|s|, i requires 0 <= i < |s| => (key(s[i]), weight(s[i])))
  }

  /** The filter that keeps the elements whose key is `k`. */
  function WithKey<T, K(==)>(key: T -> K, k: K): T -> bool
  {
    x => key(x) == k
  }

  /** Counting and weighing the items of a key is filtering the elements by that key. */
  lemma {:induction false} PairsTally<T, K>(s: seq<T>, key: T -> K, weight: T -> nat, k: K)
    ensures Occurrences(Pairs(s, key, weight), k) == |Filter(s, WithKey(key, k))|
    ensures WeightOf(Pairs(s, key, weight), k) == Sum(Filter(s, WithKey(key, k)), weight)
  {
    if s != [] {
      var n := |s| - 1;
      var last := s[n];
      var keep := WithKey(key, k);
      var items := Pairs(s, key, weight);
      assert items[..n] == Pairs(s[..n], key, weight);
      assert items[n] == (key(last), weight(last));
      assert s == s[..n] + [last];
      FilterAppend(s[..n], [last], keep);
      PairsTally(s[..n], key, weight, k);
      OneFiltered(last, keep);
      SumAppend(Filter(s[..n], keep), Filter([last], keep), weight);
      SumOne(last, weight);
    }
  }

  lemma {:induction false} PairsTotal<T, K>(s: seq<T>, key: T -> K, weight: T -> nat)
    ensures TotalWeight(Pairs(s, key, weight)) == Sum(s, weight)
  {
    if s != [] {
      var n := |s| - 1;
      var items := Pairs(s, key, weight);
      assert items[..n] == Pairs(s[..n], key, weight);
      assert items[n] == (key(s[n]), weight(s[n]));
      assert s == s[..n] + [s[n]];
      SumAppend(s[..n], [s[n]], weight);
      SumOne(s[n], weight);
      PairsTotal(s[..n], key, weight);
    }
  }

  lemma OneFiltered<T>(x: T, keep: T -> bool)
    ensures Filter([x], keep) == if keep(x) then [x] else []
  {
    assert [x][1..] == [];
  }

  lemma SumOne<T>(x: T, f: T -> nat)
    ensures Sum([x], f) == f(x)
  {
    assert [x][1..] == [];
  }

  /**
   * The group-by reduce over `s`: one group per distinct key, in order of
   * first appearance; each group counts the elements with its key and sums
   * their weights; the counts add up to |s| and the totals to the sum of all
   * weights.
   */
  lemma GroupBy<T, K>(s: seq<T>, key: T -> K, weight: T -> nat)
    ensures GroupKeys(Tally(Pairs(s, key, weight))) == Distinct(Map(s, key))
    ensures forall i :: 0 <= i < |Tally(Pairs(s, key, weight))| ==>
      var g := Tally(Pairs(s, key, weight))[i];
      && g.count == |Filter(s, WithKey(key, g.key))|
      && g.total == Sum(Filter(s, WithKey(key, g.key)), weight)
    ensures SumCounts(Tally(Pairs(s, key, weight))) == |s|
    ensures SumTotals(Tally(Pairs(s, key, weight))) == Sum(s, weight)
  {
    var items := Pairs(s, key, weight);
    TallyCorrect(items);
    KeysOfPairs(s, key, weight);
    PairsTotal(s, key, weight);
    forall i | 0 <= i < |Tally(items)| {
      GroupEntry(s, key, weight, i);
    }
  }

  lemma KeysOfPairs<T, K>(s: seq<T>, key: T -> K, weight: T -> nat)
    ensures Keys(Pairs(s, key, weight)) == Map(s, key)
  {
  }

  lemma GroupEntry<T, K>(s: seq<T>, key: T -> K, weight: T -> nat, i: nat)
    requires i < |Tally(Pairs(s, key, weight))|
    ensures var g := Tally(Pairs(s, key, weight))[i];
      && g.count == |Filter(s, WithKey(key, g.key))|
      && g.total == Sum(Filter(s, WithKey(key, g.key)), weight)
  {
    var items := Pairs(s, key, weight);
    var groups := Tally(items);
    var k := groups[i].key;
    TallyCorrect(items);
    assert NoDuplicates(GroupKeys(groups));
    GroupAt(groups, i);
    assert CountOf(groups, k) == Occurrences(items, k);
    PairsTally(s, key, weight, k);
  }

  // ---------------------------------------------------------------------
  // A stable sort by an integer key (Array.prototype.sort is stable, so a
  // stable insertion sort yields exactly the order the components see)

  ghost predicate SortedBy<T>(s: seq<T>, key: T -> int)
  {
    forall i, j :: 0 <= i < j < |s| ==> key(s[i]) <= key(s[j])
  }

  /** Insert `x` after every element whose key is not greater than its own. */
  function Insert<T>(s: seq<T>, x: T, key: T -> int): (r: seq<T>)
    ensures |r| == |s| + 1
  {
    if s == [] || key(s[|s| - 1]) <= key(x) then s + [x]
    else
      assert s == s[..|s| - 1] + [s[|s| - 1]];
      Insert(s[..|s| - 1], x, key) + [s[|s| - 1]]
  }

  /** Stable ascending sort by `key`. */
  function SortBy<T>(s: seq<T>, key: T -> int): (r: seq<T>)
    ensures |r| == |s|
  {
    if s == [] then []
    else Insert(SortBy(s[..|s| - 1], key), s[|s| - 1], key)
  }

  lemma InsertAtEnd<T>(p: seq<T>, x: T, key: T -> int)
    requires p == [] || key(p[|p| - 1]) <= key(x)
    ensures Insert(p, x, key) == p + [x]
  {
  }

  lemma InsertBefore<T>(p: seq<T>, x: T, key: T -> int)
    requires p != [] && key(p[|p| - 1]) > key(x)
    ensures Insert(p, x, key) == Insert(p[..|p| - 1], x, key) + [p[|p| - 1]]
  {
  }

  lemma SortByLast<T>(s: seq<T>, key: T -> int)
    requires s != []
    ensures SortBy(s, key) == Insert(SortBy(s[..|s| - 1], key), s[|s| - 1], key)
  {
  }

  /** A non-empty sequence is its front followed by its last element. */
  lemma Snoc<T>(s: seq<T>)
    requires s != []
    ensures s == s[..|s| - 1] + [s[|s| - 1]]
    ensures multiset(s) == multiset(s[..|s| - 1]) + multiset{s[|s| - 1]}
  {
    assert s == s[..|s| - 1] + [s[|s| - 1]];
  }

  /** Inserting adds exactly `x`. */
  lemma {:induction false} InsertPermutes<T>(s: seq<T>, x: T, key: T -> int)
    ensures multiset(Insert(s, x, key)) == multiset(s) + multiset{x}
  {
    if s != [] && key(s[|s| - 1]) > key(x) {
      var n := |s| - 1;
      InsertBefore(s, x, key);
      InsertPermutes(s[..n], x, key);
      Snoc(s);
    } else {
      InsertAtEnd(s, x, key);
    }
  }

  /** Sorting is a permutation. */
  lemma {:induction false} SortByPermutes<T>(s: seq<T>, key: T -> int)
    ensures multiset(SortBy(s, key)) == multiset(s)
  {
    if s != [] {
      var n := |s| - 1;
      SortByLast(s, key);
      SortByPermutes(s[..n], key);
      InsertPermutes(SortBy(s[..n], key), s[n], key);
      Snoc(s);
    }
  }

  lemma SortedPrefix<T>(s: seq<T>, t: nat, key: T -> int)
    requires SortedBy(s, key) && t <= |s|
    ensures SortedBy(s[..t], key)
  {
    forall i, j | 0 <= i < j < t
      ensures key(s[..t][i]) <= key(s[..t][j])
    {
      assert s[..t][i] == s[i] && s[..t][j] == s[j];
    }
  }

  lemma SortedSuffix<T>(s: seq<T>, t: nat, key: T -> int)
    requires SortedBy(s, key) && t <= |s|
    ensures SortedBy(s[t..], key)
  {
    forall i, j | 0 <= i < j < |s| - t
      ensures key(s[t..][i]) <= key(s[t..][j])
    {
      assert s[t..][i] == s[t + i] && s[t..][j] == s[t + j];
    }
  }

  /** Nothing in the front part of a sorted sequence ranks after anything in the back part. */
  lemma SortedCross<T>(s: seq<T>, t: nat, key: T -> int)
    requires SortedBy(s, key) && t <= |s|
    ensures forall x, y :: x in s[..t] && y in s[t..] ==> key(x) <= key(y)
  {
    forall x, y | x in s[..t] && y in s[t..]
      ensures key(x) <= key(y)
    {
      var i :| 0 <= i < t && s[..t][i] == x;
      var j :| 0 <= j < |s| - t && s[t..][j] == y;
      assert s[i] == x && s[t + j] == y;
    }
  }

  /** A sorted sequence stays sorted when an element ranking after all of it is appended. */
  lemma SortedSnoc<T>(q: seq<T>, y: T, key: T -> int)
    requires SortedBy(q, key)
    requires forall i :: 0 <= i < |q| ==> key(q[i]) <= key(y)
    ensures SortedBy(q + [y], key)
  {
    var r := q + [y];
    forall i, j | 0 <= i < j < |r|
      ensures key(r[i]) <= key(r[j])
    {
      assert r[i] == q[i];
      if j < |q| {
        assert r[j] == q[j];
      }
    }
  }

  /** Inserting under a bound keeps every key under the bound. */
  lemma {:induction false} InsertBounded<T>(p: seq<T>, x: T, key: T -> int, b: int)
    requires forall i :: 0 <= i < |p| ==> key(p[i]) <= b
    requires key(x) <= b
    ensures forall i :: 0 <= i < |Insert(p, x, key)| ==> key(Insert(p, x, key)[i]) <= b
  {
    if p != [] && key(p[|p| - 1]) > key(x) {
      var m := |p| - 1;
      InsertBefore(p, x, key);
      InsertBounded(p[..m], x, key, b);
      var q := Insert(p[..m], x, key);
      forall i | 0 <= i < |q| + 1
        ensures key((q + [p[m]])[i]) <= b
      {
        if i < |q| {
          assert (q + [p[m]])[i] == q[i];
        }
      }
    } else {
      InsertAtEnd(p, x, key);
      forall i | 0 <= i < |p| + 1
        ensures key((p + [x])[i]) <= b
      {
        if i < |p| {
          assert (p + [x])[i] == p[i];
        }
      }
    }
  }

  lemma {:induction false} InsertSorted<T>(s: seq<T>, x: T, key: T -> int)
    requires SortedBy(s, key)
    ensures SortedBy(Insert(s, x, key), key)
  {
    if s != [] && key(s[|s| - 1]) > key(x) {
      var n := |s| - 1;
      var p := s[..n];
      InsertBefore(s, x, key);
      SortedPrefix(s, n, key);
      InsertSorted(p, x, key);
      forall i | 0 <= i < |p|
        ensures key(p[i]) <= key(s[n])
      {
        assert p[i] == s[i];
      }
      InsertBounded(p, x, key, key(s[n]));
      SortedSnoc(Insert(p, x, key), s[n], key);
    } else {
      InsertAtEnd(s, x, key);
      forall i | 0 <= i < |s|
        ensures key(s[i]) <= key(x)
      {
        if i < |s| - 1 {
          assert key(s[i]) <= key(s[|s| - 1]);
        }
      }
      SortedSnoc(s, x, key);
    }
  }

  lemma {:induction false} SortBySorted<T>(s: seq<T>, key: T -> int)
    ensures SortedBy(SortBy(s, key), key)
  {
    if s != [] {
      SortByLast(s, key);
      SortBySorted(s[..|s| - 1], key);
      InsertSorted(SortBy(s[..|s| - 1], key), s[|s| - 1], key);
    }
  }

  /**
   * Cutting a sorted sequence in two gives two sorted parts that together
   * hold its elements, and nothing in the front part ranks after anything in
   * the back part.
   */
  lemma SortedSplit<T>(s: seq<T>, t: nat, key: T -> int)
    requires SortedBy(s, key) && t <= |s|
    ensures multiset(s) == multiset(s[..t]) + multiset(s[t..])
    ensures SortedBy(s[..t], key) && SortedBy(s[t..], key)
    ensures forall x, y :: x in s[..t] && y in s[t..] ==> key(x) <= key(y)
  {
    assert s == s[..t] + s[t..];
    SortedPrefix(s, t, key);
    SortedSuffix(s, t, key);
    SortedCross(s, t, key);
  }

  /**
   * Taking the first `n` elements of a sorted permutation of `s` splits `s`
   * into a top part and a rest, and no element of the top part ranks after an
   * element of the rest: `sort(...).slice(0, n)` is a top-n selection.
   */
  lemma SortedTake<T>(s: seq<T>, n: nat, key: T -> int)
    ensures var sorted := SortBy(s, key);
      var rest := sorted[|Take(sorted, n)|..];
      && multiset(s) == multiset(Take(sorted, n)) + multiset(rest)
      && SortedBy(Take(sorted, n), key)
      && forall x, y :: x in Take(sorted, n) && y in rest ==> key(x) <= key(y)
  {
    var sorted := SortBy(s, key);
    SortBySorted(s, key);
    SortByPermutes(s, key);
    var t := |Take(sorted, n)|;
    assert Take(sorted, n) == sorted[..t];
    SortedSplit(sorted, t, key);
  }

  /** The mirror image of SortedTake, for the last `n` elements. */
  lemma SortedTakeLast<T>(s: seq<T>, n: nat, key: T -> int)
    ensures var sorted := SortBy(s, key);
      var rest := sorted[..|sorted| - |TakeLast(sorted, n)|];
      && multiset(s) == multiset(rest) + multiset(TakeLast(sorted, n))
      && SortedBy(TakeLast(sorted, n), key)
      && forall x, y :: x in TakeLast(sorted, n) && y in rest ==> key(y) <= key(x)
  {
    var sorted := SortBy(s, key);
    SortBySorted(s, key);
    SortByPermutes(s, key);
    var t := |sorted| - |TakeLast(sorted, n)|;
    assert TakeLast(sorted, n) == sorted[t..];
    SortedSplit(sorted, t, key);
  }

  /**
   * `sort(...).slice(0, n)`: the (at most) n elements that rank first, in
   * rank order; every element left out ranks no earlier than every one kept.
   */
  function TopBy<T>(s: seq<T>, key: T -> int, n: nat): (r: seq<T>)
    ensures |r| == if |s| <= n then |s| else n
    ensures SortedBy(r, key)
    ensures multiset(r) <= multiset(s)
    ensures |s| <= n ==> multiset(r) == multiset(s)
    ensures forall x, y :: x in r && y in multiset(s) - multiset(r) ==> key(x) <= key(y)
  {
    SortedTake(s, n, key);
    Take(SortBy(s, key), n)
  }

  /**
   * `sort(...).slice(-n)`: the (at most) n elements that rank last, in rank
   * order; every element left out ranks no later than every one kept.
   */
  function LastBy<T>(s: seq<T>, key: T -> int, n: nat): (r: seq<T>)
    ensures |r| == if |s| <= n then |s| else n
    ensures SortedBy(r, key)
    ensures multiset(r) <= multiset(s)
    ensures |s| <= n ==> multiset(r) == multiset(s)
    ensures forall x, y :: x in r && y in multiset(s) - multiset(r) ==> key(y) <= key(x)
  {
    SortedTakeLast(s, n, key);
    TakeLast(SortBy(s, key), n)
  }

  /**
   * Where insertion puts `x`: after the first `j` elements when none of those
   * ranks after it and every later one does.
   */
  lemma {:induction false} InsertAt<T>(s: seq<T>, x: T, key: T -> int, j: nat)
    requires j <= |s|
    requires j == 0 || key(s[j - 1]) <= key(x)
    requires forall k :: j <= k < |s| ==> key(s[k]) > key(x)
    ensures Insert(s, x, key) == s[..j] + [x] + s[j..]
    decreases |s|
  {
    if j == |s| {
      assert s[..j] == s;
      InsertAtEnd(s, x, key);
    } else {
      var n := |s| - 1;
      InsertBefore(s, x, key);
      InsertAt(s[..n], x, key, j);
      assert s[..n][..j] == s[..j];
      assert s[j..] == s[..n][j..] + [s[n]];
    }
  }

  /** Sorting a sorted sequence changes nothing (so sorting twice is sorting once). */
  lemma {:induction false} SortByOfSorted<T>(s: seq<T>, key: T -> int)
    requires SortedBy(s, key)
    ensures SortBy(s, key) == s
  {
    if s != [] {
      var n := |s| - 1;
      var p := s[..n];
      SortedPrefix(s, n, key);
      SortByOfSorted(p, key);
      if n > 0 {
        assert key(p[n - 1]) <= key(s[n]) by {
          assert p[n - 1] == s[n - 1];
        }
      }
      InsertAtEnd(p, s[n], key);
      SortByLast(s, key);
    }
  }

  /** Inserting `x` keeps, for every key, the order of the elements with that key, `x` last among its equals. */
  lemma {:induction false} InsertStable<T>(p: seq<T>, x: T, key: T -> int, k: int)
    ensures Filter(Insert(p, x, key), WithKey(key, k)) == Filter(p, WithKey(key, k)) + Filter([x], WithKey(key, k))
  {
    var keep := WithKey(key, k);
    if p != [] && key(p[|p| - 1]) > key(x) {
      var n := |p| - 1;
      var front, last := p[..n], p[n];
      InsertBefore(p, x, key);
      InsertStable(front, x, key, k);
      FilterAppend(Insert(front, x, key), [last], keep);
      assert p == front + [last] by { Snoc(p); }
      FilterAppend(front, [last], keep);
      UnequalKeysCommute(x, last, key, k);
    } else {
      InsertAtEnd(p, x, key);
      FilterAppend(p, [x], keep);
    }
  }

  /** Two elements with different keys cannot both have key `k`, so their filtered singletons commute. */
  lemma UnequalKeysCommute<T>(x: T, y: T, key: T -> int, k: int)
    requires key(x) != key(y)
    ensures Filter([x], WithKey(key, k)) + Filter([y], WithKey(key, k)) == Filter([y], WithKey(key, k)) + Filter([x], WithKey(key, k))
  {
    OneFiltered(x, WithKey(key, k));
    OneFiltered(y, WithKey(key, k));
  }

  /**
   * The sort is stable: for every key, the elements with that key appear in
   * the output in the same order as in the input.
   */
  lemma {:induction false} SortByStable<T>(s: seq<T>, key: T -> int, k: int)
    ensures Filter(SortBy(s, key), WithKey(key, k)) == Filter(s, WithKey(key, k))
  {
    if s != [] {
      var n := |s| - 1;
      SortByLast(s, key);
      SortByStable(s[..n], key, k);
      InsertStable(SortBy(s[..n], key), s[n], key, k);
      Snoc(s);
      FilterAppend(s[..n], [s[n]], WithKey(key, k));
    }
  }

  /** A sequence without duplicates drawn from a set is no longer than the set is large. */
  lemma {:induction false} NoDuplicatesBound<T>(s: seq<T>, within: set<T>)
    requires NoDuplicates(s)
    requires forall i :: 0 <= i < |s| ==> s[i] in within
    ensures |s| <= |within|
  {
    if s != [] {
      forall i | 0 <= i < |s| - 1
        ensures s[1..][i] in within - {s[0]}
      {
        assert s[1..][i] == s[i + 1];
      }
      NoDuplicatesBound(s[1..], within - {s[0]});
    }
  }

  // ---------------------------------------------------------------------
  // `parts.join(sep)` and `s.split(sep)` for a one-character separator

  function Join(parts: seq<string>, sep: char): string
  {
    if |parts| == 0 then ""
    else if |parts| == 1 then parts[0]
    else parts[0] + [sep] + Join(parts[1..], sep)
  }

  function Split(s: string, sep: char): (r: seq<string>)
    ensures |r| >= 1
  {
    if s == [] then [""]
    else if s[0] == sep then [""] + Split(s[1..], sep)
    else
      var t := Split(s[1..], sep);
      [[s[0]] + t[0]] + t[1..]
  }

  lemma {:induction false} SplitNoSeparator(s: string, sep: char)
    requires sep !in s
    ensures Split(s, sep) == [s]
  {
    if s != [] {
      SplitNoSeparator(s[1..], sep);
      assert [s[0]] + s[1..] == s;
    }
  }

  lemma {:induction false} SplitAfterPart(p: string, sep: char, rest: string)
    requires sep !in p
    ensures Split(p + [sep] + rest, sep) == [p] + Split(rest, sep)
  {
    if p == [] {
      assert p + [sep] + rest == [sep] + rest;
      assert ([sep] + rest)[1..] == rest;
    } else {
      var s := p + [sep] + rest;
      assert s[1..] == p[1..] + [sep] + rest;
      SplitAfterPart(p[1..], sep, rest);
      assert [p[0]] + p[1..] == p;
    }
  }

  /** Splitting a join recovers the parts, provided no part contains the separator. */
  lemma {:induction false} SplitJoin(parts: seq<string>, sep: char)
    requires |parts| >= 1
    requires forall i :: 0 <= i < |parts| ==> sep !in parts[i]
    ensures Split(Join(parts, sep), sep) == parts
  {
    if |parts| == 1 {
      SplitNoSeparator(parts[0], sep);
    } else {
      SplitJoin(parts[1..], sep);
      SplitAfterPart(parts[0], sep, Join(parts[1..], sep));
    }
  }

  // ---------------------------------------------------------------------
  // Number-to-string for non-negative integers (`n.toString()`), and its inverse

  predicate IsDigit(c: char)
  {
    '0' <= c <= '9'
  }

  function DigitChar(d: nat): (c: char)
    requires d < 10
    ensures IsDigit(c) && c as int - '0' as int == d
  {
    ('0' as int + d) as char
  }

  /** The decimal representation, without leading zeros. */
  function DecimalText(n: nat): (r: string)
    ensures |r| >= 1
    ensures forall i :: 0 <= i < |r| ==> IsDigit(r[i])
    ensures r[0] == '0' ==> n == 0 && r == "0"
    ensures |r| == 1 <==> n < 10
  {
    if n < 10 then [DigitChar(n)] else DecimalText(n / 10) + [DigitChar(n % 10)]
  }

  /** The value of a string of decimal digits. */
  function ParseDecimal(s: string): nat
    requires forall i :: 0 <= i < |s| ==> IsDigit(s[i])
  {
    if s == [] then 0
    else
      assert IsDigit(s[|s| - 1]);
      ParseDecimal(s[..|s| - 1]) * 10 + (s[|s| - 1] as int - '0' as int)
  }

  lemma {:induction false} DecimalRoundTrip(n: nat)
    ensures ParseDecimal(DecimalText(n)) == n
  {
    if n >= 10 {
      var r := DecimalText(n);
      assert r[..|r| - 1] == DecimalText(n / 10);
      DecimalRoundTrip(n / 10);
    }
  }

  /** `s.padStart(2, "0")`. */
  function PadTwo(s: string): (r: string)
    ensures |s| < 2 ==> |r| == 2 && r[2 - |s|..] == s
    ensures |s| < 2 ==> forall i :: 0 <= i < 2 - |s| ==> r[i] == '0'
    ensures |s| >= 2 ==> r == s
  {
    if |s| == 0 then "00" else if |s| == 1 then "0" + s else s
  }
}
