/** `Counter.most_common(limit)`, as `get_ranked_results` uses it: the keys sorted
    by descending count, keys of equal count in the order they were first
    inserted (the sort is stable), cut to the first `limit` entries. */
module Ranker {
  import opened Common
  import opened Frequency

  /** One `(item, count)` pair of the ranked list. */
  datatype Entry = Entry(key: string, count: nat)

  /** Counts never increase along `ks`. */
  predicate ByCount(ks: seq<string>, counts: map<string, nat>)
    requires forall k :: k in ks ==> k in counts
  {
    forall i, j :: 0 <= i < j < |ks| ==> counts[ks[i]] >= counts[ks[j]]
  }

  /** Keys of equal count appear in `ks` in the order they have in `order`. */
  predicate TiesInOrder(ks: seq<string>, counts: map<string, nat>, order: seq<string>)
    requires forall k :: k in ks ==> k in counts && k in order
  {
    forall i, j :: 0 <= i < j < |ks| && counts[ks[i]] == counts[ks[j]] ==>
      IndexOf(order, ks[i]) < IndexOf(order, ks[j])
  }

  /** Where a key of count `c` goes into a list sorted by count so that it comes
      after every key whose count is at least `c`. */
  function Place(c: nat, ks: seq<string>, counts: map<string, nat>): (p: nat)
    requires forall k :: k in ks ==> k in counts
    ensures p <= |ks|
    ensures forall j :: 0 <= j < p ==> counts[ks[j]] >= c
    ensures p < |ks| ==> counts[ks[p]] < c
  {
    if ks == [] || counts[ks[0]] < c then 0
    else 1 + Place(c, ks[1..], counts)
  }

  /** `k` put in its stable place in `ks`. */
  function Insert(k: string, ks: seq<string>, counts: map<string, nat>): (r: seq<string>)
    requires k in counts && forall x :: x in ks ==> x in counts
    ensures multiset(r) == multiset(ks) + multiset{k}
    ensures forall x :: x in r <==> x in ks || x == k
  {
    var p := Place(counts[k], ks, counts);
    assert ks == ks[..p] + ks[p..];
    ks[..p] + [k] + ks[p..]
  }

  /** The stable sort by descending count of the keys in `order`. */
  function SortByCount(order: seq<string>, counts: map<string, nat>): (r: seq<string>)
    requires forall k :: k in order ==> k in counts
    ensures multiset(r) == multiset(order)
    ensures forall x :: x in r <==> x in order
  {
    if order == [] then []
    else
      var init := order[..|order| - 1];
      assert order == init + [order[|order| - 1]];
      Insert(order[|order| - 1], SortByCount(init, counts), counts)
  }

  /** Each key paired with its count. */
  function Entries(ks: seq<string>, counts: map<string, nat>): (r: seq<Entry>)
    requires forall k :: k in ks ==> k in counts
    ensures |r| == |ks|
    ensures forall i :: 0 <= i < |r| ==> r[i] == Entry(ks[i], counts[ks[i]])
  {
    if ks == [] then [] else [Entry(ks[0], counts[ks[0]])] + Entries(ks[1..], counts)
  }

  /** No entry of `r` is for `k`. */
  predicate Omitted(r: seq<Entry>, k: string)
  {
    forall i :: 0 <= i < |r| ==> r[i].key != k
  }

  /** `[(item, count) for item, count in counter.most_common(limit)]` */
  function Rank(counts: map<string, nat>, order: seq<string>, limit: int): (r: seq<Entry>)
    requires CounterShape(counts, order)
    ensures limit <= 0 ==> r == []
    ensures limit > 0 ==> |r| == Min(limit, |order|)
    ensures forall i :: 0 <= i < |r| ==> r[i].key in counts && r[i].count == counts[r[i].key]
    ensures forall i, j :: 0 <= i < j < |r| ==> r[i].key != r[j].key
    ensures forall i, j :: 0 <= i < j < |r| ==> r[i].count >= r[j].count
    ensures forall i, j :: 0 <= i < j < |r| && r[i].count == r[j].count ==>
      IndexOf(order, r[i].key) < IndexOf(order, r[j].key)
    ensures forall k :: k in counts && Omitted(r, k) ==>
      forall i :: 0 <= i < |r| ==> counts[k] <= r[i].count
    ensures forall k, i :: k in counts && Omitted(r, k) && 0 <= i < |r| && counts[k] == r[i].count ==>
      IndexOf(order, r[i].key) < IndexOf(order, k)
  {
    var n := if limit <= 0 then 0 else Min(limit, |order|);
    SortByCountLength(order, counts);
    var r := Entries(SortByCount(order, counts)[..n], counts);
    RankOrdered(counts, order, n, r);
    RankTop(counts, order, n, r);
    RankCut(counts, order, n, r);
    r
  }

  /** Entries for keys without repeats, sorted by count with ties in `order`. */
  lemma EntriesOrdered(sorted: seq<string>, counts: map<string, nat>, order: seq<string>, n: nat)
    requires n <= |sorted| && forall k :: k in sorted ==> k in counts && k in order
    requires Distinct(sorted) && ByCount(sorted, counts) && TiesInOrder(sorted, counts, order)
    ensures var r := Entries(sorted[..n], counts);
      (forall i :: 0 <= i < |r| ==> r[i].key in counts && r[i].count == counts[r[i].key]) &&
      (forall i, j :: 0 <= i < j < |r| ==> r[i].key != r[j].key) &&
      (forall i, j :: 0 <= i < j < |r| ==> r[i].count >= r[j].count) &&
      (forall i, j :: 0 <= i < j < |r| && r[i].count == r[j].count ==>
        IndexOf(order, r[i].key) < IndexOf(order, r[j].key))
  {
    var r := Entries(sorted[..n], counts);
    assert forall i :: 0 <= i < n ==> r[i].key == sorted[i];
  }

  /** A key left out of the first `n` sorted keys has a count no larger than any kept one. */
  lemma EntriesTop(sorted: seq<string>, counts: map<string, nat>, n: nat)
    requires n <= |sorted| && forall k :: k in sorted <==> k in counts
    requires ByCount(sorted, counts)
    ensures var r := Entries(sorted[..n], counts);
      forall k :: k in counts && Omitted(r, k) ==>
        forall i :: 0 <= i < |r| ==> counts[k] <= r[i].count
  {
    var r := Entries(sorted[..n], counts);
    forall k | k in counts && Omitted(r, k)
      ensures forall i :: 0 <= i < |r| ==> counts[k] <= r[i].count
    {
      var m := IndexOf(sorted, k);
      assert forall i :: 0 <= i < n ==> sorted[i] != k by {
        forall i | 0 <= i < n
          ensures sorted[i] != k
        {
          assert r[i].key == sorted[i];
        }
      }
      assert n <= m;
    }
  }

  /** At the cut, a key left out with the same count as a kept one was inserted
      after it. */
  lemma EntriesCut(sorted: seq<string>, counts: map<string, nat>, order: seq<string>, n: nat)
    requires n <= |sorted| && forall k :: k in sorted <==> k in counts
    requires forall k :: k in sorted ==> k in order
    requires TiesInOrder(sorted, counts, order)
    ensures var r := Entries(sorted[..n], counts);
      forall k, i :: k in counts && Omitted(r, k) && 0 <= i < |r| && counts[k] == r[i].count ==>
        IndexOf(order, r[i].key) < IndexOf(order, k)
  {
    var r := Entries(sorted[..n], counts);
    forall k, i | k in counts && Omitted(r, k) && 0 <= i < |r| && counts[k] == r[i].count
      ensures IndexOf(order, r[i].key) < IndexOf(order, k)
    {
      var m := IndexOf(sorted, k);
      assert forall j :: 0 <= j < n ==> sorted[j] != k by {
        forall j | 0 <= j < n
          ensures sorted[j] != k
        {
          assert r[j].key == sorted[j];
        }
      }
      assert r[i].key == sorted[i] && i < m;
    }
  }

  /** The first `n` keys of the sort, with their counts, are ordered as `Rank` promises. */
  lemma RankOrdered(counts: map<string, nat>, order: seq<string>, n: nat, r: seq<Entry>)
    requires CounterShape(counts, order) && n <= |order|
    requires |SortByCount(order, counts)| == |order| && r == Entries(SortByCount(order, counts)[..n], counts)
    ensures forall i :: 0 <= i < |r| ==> r[i].key in counts && r[i].count == counts[r[i].key]
    ensures forall i, j :: 0 <= i < j < |r| ==> r[i].key != r[j].key
    ensures forall i, j :: 0 <= i < j < |r| ==> r[i].count >= r[j].count
    ensures forall i, j :: 0 <= i < j < |r| && r[i].count == r[j].count ==>
      IndexOf(order, r[i].key) < IndexOf(order, r[j].key)
  {
    SortedKeys(order, counts);
    EntriesOrdered(SortByCount(order, counts), counts, order, n);
  }

  /** The first `n` keys of the sort are a top `n`. */
  lemma RankTop(counts: map<string, nat>, order: seq<string>, n: nat, r: seq<Entry>)
    requires CounterShape(counts, order) && n <= |order|
    requires |SortByCount(order, counts)| == |order| && r == Entries(SortByCount(order, counts)[..n], counts)
    ensures forall k :: k in counts && Omitted(r, k) ==>
      forall i :: 0 <= i < |r| ==> counts[k] <= r[i].count
  {
    SortedKeys(order, counts);
    EntriesTop(SortByCount(order, counts), counts, n);
  }

  /** Which of equally counted keys make the first `n`: the earliest inserted. */
  lemma RankCut(counts: map<string, nat>, order: seq<string>, n: nat, r: seq<Entry>)
    requires CounterShape(counts, order) && n <= |order|
    requires |SortByCount(order, counts)| == |order| && r == Entries(SortByCount(order, counts)[..n], counts)
    ensures forall k, i :: k in counts && Omitted(r, k) && 0 <= i < |r| && counts[k] == r[i].count ==>
      IndexOf(order, r[i].key) < IndexOf(order, k)
  {
    SortedKeys(order, counts);
    EntriesCut(SortByCount(order, counts), counts, order, n);
  }

  /** The sort keeps the number of keys. */
  lemma SortByCountLength(order: seq<string>, counts: map<string, nat>)
    requires forall k :: k in order ==> k in counts
    ensures |SortByCount(order, counts)| == |order|
  {
    assert |multiset(SortByCount(order, counts))| == |multiset(order)|;
  }

  /** The sorted keys are the keys of the counter, each once, sorted by count,
      ties in insertion order. */
  lemma SortedKeys(order: seq<string>, counts: map<string, nat>)
    requires CounterShape(counts, order)
    ensures var s := SortByCount(order, counts);
      |s| == |order| && Distinct(s) && ByCount(s, counts) && TiesInOrder(s, counts, order)
  {
    var s := SortByCount(order, counts);
    SortByCountSorted(order, counts);
    SortByCountStable(order, counts);
    PermutationDistinct(order, s);
    assert |multiset(s)| == |multiset(order)|;
  }

  // ---------------------------------------------------------------------------
  // The sort is sorted, stable, and a permutation.

  /** Proof helper for `InsertSorted` and `InsertStable`: `Insert` read index by index. */
  lemma InsertIndex(k: string, ks: seq<string>, counts: map<string, nat>, x: nat)
    requires k in counts && forall y :: y in ks ==> y in counts
    requires x <= |ks|
    ensures var p := Place(counts[k], ks, counts);
      Insert(k, ks, counts)[x] == if x < p then ks[x] else if x == p then k else ks[x - 1]
  {
  }

  /** Inserting keeps a list sorted by count. */
  lemma InsertSorted(k: string, ks: seq<string>, counts: map<string, nat>)
    requires k in counts && forall x :: x in ks ==> x in counts
    requires ByCount(ks, counts)
    ensures ByCount(Insert(k, ks, counts), counts)
  {
    var p := Place(counts[k], ks, counts);
    var r := Insert(k, ks, counts);
    forall j | p <= j < |ks|
      ensures counts[ks[j]] < counts[k]
    {
    }
    forall i, j | 0 <= i < j < |r|
      ensures counts[r[i]] >= counts[r[j]]
    {
      InsertIndex(k, ks, counts, i);
      InsertIndex(k, ks, counts, j);
    }
  }

  lemma {:induction false} SortByCountSorted(order: seq<string>, counts: map<string, nat>)
    requires forall k :: k in order ==> k in counts
    ensures ByCount(SortByCount(order, counts), counts)
  {
    if order != [] {
      var init := order[..|order| - 1];
      assert forall x :: x in init ==> x in order;
      SortByCountSorted(init, counts);
      InsertSorted(order[|order| - 1], SortByCount(init, counts), counts);
    }
  }

  /** Inserting a key that comes after every key of `ks` in `order` keeps ties in order. */
  lemma InsertStable(k: string, ks: seq<string>, counts: map<string, nat>, order: seq<string>)
    requires k in counts && k in order
    requires forall x :: x in ks ==> x in counts && x in order && IndexOf(order, x) < IndexOf(order, k)
    requires ByCount(ks, counts) && TiesInOrder(ks, counts, order)
    ensures TiesInOrder(Insert(k, ks, counts), counts, order)
  {
    var p := Place(counts[k], ks, counts);
    var r := Insert(k, ks, counts);
    forall j | p <= j < |ks|
      ensures counts[ks[j]] < counts[k]
    {
    }
    forall i, j | 0 <= i < j < |r| && counts[r[i]] == counts[r[j]]
      ensures IndexOf(order, r[i]) < IndexOf(order, r[j])
    {
      InsertIndex(k, ks, counts, i);
      InsertIndex(k, ks, counts, j);
    }
  }

  lemma {:induction false} SortByCountStable(order: seq<string>, counts: map<string, nat>)
    requires Distinct(order) && forall k :: k in order ==> k in counts
    ensures TiesInOrder(SortByCount(order, counts), counts, order)
  {
    if order != [] {
      var init := order[..|order| - 1];
      var last := order[|order| - 1];
      var ks := SortByCount(init, counts);
      assert order == init + [last];
      assert forall x :: x in init ==> x in order;
      SortByCountStable(init, counts);
      SortByCountSorted(init, counts);
      IndexOfInit(order);
      TiesTransfer(ks, counts, init, order);
      InsertStable(last, ks, counts, order);
    }
  }

  /** Dropping the last key of a list without repeats keeps every other key's
      position, and all of them come before the last. */
  lemma IndexOfInit(order: seq<string>)
    requires Distinct(order) && order != []
    ensures forall x :: x in order[..|order| - 1] ==>
      IndexOf(order, x) == IndexOf(order[..|order| - 1], x) < IndexOf(order, order[|order| - 1])
  {
    var init := order[..|order| - 1];
    IndexOfDistinct(order, |order| - 1);
    forall x | x in init
      ensures IndexOf(order, x) == IndexOf(init, x) < |order| - 1
    {
      IndexOfPrefix(init, order, x);
    }
  }

  /** Ties ordered by one list stay ordered by another that places their keys alike. */
  lemma TiesTransfer(ks: seq<string>, counts: map<string, nat>, a: seq<string>, b: seq<string>)
    requires forall x :: x in ks ==> x in counts && x in a && x in b && IndexOf(a, x) == IndexOf(b, x)
    requires TiesInOrder(ks, counts, a)
    ensures TiesInOrder(ks, counts, b)
  {
  }

  /** Sorting by count with ties in `order` leaves no choice: two key lists with
      the same keys, each once, both sorted that way, are the same list. */
  lemma {:induction false} RankedUnique(a: seq<string>, b: seq<string>, counts: map<string, nat>, order: seq<string>)
    requires forall k :: k in a ==> k in counts && k in order
    requires forall k :: k in a <==> k in b
    requires Distinct(a) && ByCount(a, counts) && TiesInOrder(a, counts, order)
    requires Distinct(b) && ByCount(b, counts) && TiesInOrder(b, counts, order)
    ensures a == b
    decreases |a|
  {
    if b != [] {
      assert b[0] in a;
    }
    if a != [] {
      RankedHead(a, b, counts, order);
      forall k
        ensures k in a[1..] <==> k in b[1..]
      {
        assert k in a[1..] <==> k in a && k != a[0];
        assert k in b[1..] <==> k in b && k != b[0];
      }
      RankedUnique(a[1..], b[1..], counts, order);
      assert a == [a[0]] + a[1..] && b == [b[0]] + b[1..];
    }
  }

  /** Two such lists start with the same key. */
  lemma RankedHead(a: seq<string>, b: seq<string>, counts: map<string, nat>, order: seq<string>)
    requires a != [] && forall k :: k in a ==> k in counts && k in order
    requires forall k :: k in a <==> k in b
    requires Distinct(a) && ByCount(a, counts) && TiesInOrder(a, counts, order)
    requires Distinct(b) && ByCount(b, counts) && TiesInOrder(b, counts, order)
    ensures b != [] && a[0] == b[0]
  {
    assert a[0] in b && b[0] in a;
    var m := IndexOf(b, a[0]);
    var m' := IndexOf(a, b[0]);
    assert counts[b[0]] >= counts[a[0]];
    assert counts[a[0]] >= counts[b[0]];
  }

  /** The ranking is determined by its properties: any list of the counter's keys,
      each once, sorted by descending count with ties in insertion order, is the
      sort `most_common` uses. */
  lemma SortByCountUnique(counts: map<string, nat>, order: seq<string>, s: seq<string>)
    requires CounterShape(counts, order)
    requires forall k :: k in s <==> k in order
    requires Distinct(s) && ByCount(s, counts) && TiesInOrder(s, counts, order)
    ensures s == SortByCount(order, counts)
  {
    SortedKeys(order, counts);
    RankedUnique(s, SortByCount(order, counts), counts, order);
  }

  /** A permutation of a list without repeats has no repeats. */
  lemma PermutationDistinct(a: seq<string>, b: seq<string>)
    requires Distinct(a) && multiset(a) == multiset(b)
    ensures Distinct(b)
  {
    forall i, j | 0 <= i < j < |b|
      ensures b[i] != b[j]
    {
      if b[i] == b[j] {
        assert multiset(b)[b[i]] >= 2 by {
          var x := b[i];
          assert b == b[..i] + [x] + b[i + 1..j] + [x] + b[j + 1..];
        }
        DistinctOnce(a, b[i]);
      }
    }
  }

  /** In a list without repeats every element occurs once. */
  lemma {:induction false} DistinctOnce(a: seq<string>, x: string)
    requires Distinct(a)
    ensures multiset(a)[x] <= 1
  {
    if a != [] {
      var init := a[..|a| - 1];
      assert a == init + [a[|a| - 1]];
      assert Distinct(init);
      DistinctOnce(init, x);
    }
  }
}
