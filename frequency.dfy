/** What a Python `Counter` fed with a sequence of keys holds: a count per key
    and, for ranking ties, the order in which the keys were first inserted. */
module Frequency {
  import opened Common

  /** The counts `counter[k] += 1` leaves for each `k` of `ks` in turn, starting
      from an empty counter. */
  function Tally(ks: seq<string>): map<string, nat>
  {
    if ks == [] then map[]
    else
      var m := Tally(ks[..|ks| - 1]);
      var k := ks[|ks| - 1];
      m[k := (if k in m then m[k] else 0) + 1]
  }

  /** The keys of `ks` in order of first occurrence: a dict's insertion order. */
  function FirstSeen(ks: seq<string>): (r: seq<string>)
    ensures Distinct(r)
    ensures forall k :: k in r <==> k in ks
  {
    if ks == [] then []
    else
      var r := FirstSeen(ks[..|ks| - 1]);
      var k := ks[|ks| - 1];
      assert forall x :: x in ks <==> x in ks[..|ks| - 1] || x == k by {
        assert ks == ks[..|ks| - 1] + [k];
      }
      if k in r then r else r + [k]
  }

  /** A counter's map and its key order agree: each key once, and nothing else. */
  predicate CounterShape(counts: map<string, nat>, order: seq<string>)
  {
    Distinct(order) && (forall k :: k in counts ==> k in order) && (forall k :: k in order ==> k in counts)
  }

  /** Sum of the counts of the keys in `order`; a key without a count adds 0. */
  function Total(order: seq<string>, counts: map<string, nat>): nat
  {
    if order == [] then 0
    else
      var k := order[|order| - 1];
      Total(order[..|order| - 1], counts) + if k in counts then counts[k] else 0
  }

  /** One more key, on a counter `m`, `r` that holds `ks`: its count goes up by
      one, a missing key counting as 0, and it joins the order if it is new. */
  lemma CountSnoc(ks: seq<string>, k: string, m: map<string, nat>, r: seq<string>)
    requires m == Tally(ks) && r == FirstSeen(ks)
    ensures k in m <==> k in ks
    ensures Tally(ks + [k]) == m[k := (if k in m then m[k] else 0) + 1]
    ensures FirstSeen(ks + [k]) == if k in m then r else r + [k]
  {
    TallyAt(ks, k);
    TallySnoc(ks, k);
    FirstSeenSnoc(ks, k);
  }

  lemma TallySnoc(ks: seq<string>, k: string)
    ensures Tally(ks + [k]) == Tally(ks)[k := (if k in Tally(ks) then Tally(ks)[k] else 0) + 1]
  {
    assert (ks + [k])[..|ks|] == ks;
  }

  lemma FirstSeenSnoc(ks: seq<string>, k: string)
    ensures FirstSeen(ks + [k]) == if k in ks then FirstSeen(ks) else FirstSeen(ks) + [k]
  {
    assert (ks + [k])[..|ks|] == ks;
  }

  /** Counting one key at a time ends with each key's number of occurrences, and
      with no key that does not occur. */
  lemma {:induction false} TallyAt(ks: seq<string>, k: string)
    ensures k in Tally(ks) <==> k in ks
    ensures k in ks ==> Tally(ks)[k] == multiset(ks)[k]
  {
    if ks != [] {
      var init := ks[..|ks| - 1];
      assert ks == init + [ks[|ks| - 1]];
      assert multiset(ks) == multiset(init) + multiset{ks[|ks| - 1]};
      TallyAt(init, k);
    }
  }

  /** Keys that appear earlier in `FirstSeen` first occur earlier in `ks`. */
  lemma {:induction false} FirstSeenOrder(ks: seq<string>)
    ensures forall i, j :: 0 <= i < j < |FirstSeen(ks)| ==>
      IndexOf(ks, FirstSeen(ks)[i]) < IndexOf(ks, FirstSeen(ks)[j])
  {
    if ks != [] {
      var init := ks[..|ks| - 1];
      var last := ks[|ks| - 1];
      var r := FirstSeen(init);
      FirstSeenOrder(init);
      forall x | x in init
        ensures IndexOf(ks, x) == IndexOf(init, x)
      {
        IndexOfPrefix(init, ks, x);
      }
      if last !in r {
        assert IndexOf(ks, last) == |ks| - 1;
      }
    }
  }

  /** A key's first position is the same in any extension of a sequence holding it. */
  lemma {:induction false} IndexOfPrefix(a: seq<string>, b: seq<string>, x: string)
    requires x in a && |a| <= |b| && a == b[..|a|]
    ensures IndexOf(b, x) == IndexOf(a, x)
  {
    if a[0] != x {
      assert a[1..] == b[1..][..|a| - 1];
      IndexOfPrefix(a[1..], b[1..], x);
    }
  }

  /** Changing the count of a key outside `order` does not change the total. */
  lemma {:induction false} TotalFrame(order: seq<string>, counts: map<string, nat>, k: string, c: nat)
    requires k !in order
    ensures Total(order, counts[k := c]) == Total(order, counts)
  {
    if order != [] {
      TotalFrame(order[..|order| - 1], counts, k, c);
    }
  }

  /** Adding one to the count of a key that occurs once in `order` adds one to the total. */
  lemma {:induction false} TotalBump(order: seq<string>, counts: map<string, nat>, k: string)
    requires Distinct(order) && k in order && k in counts
    ensures Total(order, counts[k := counts[k] + 1]) == Total(order, counts) + 1
  {
    var init := order[..|order| - 1];
    var last := order[|order| - 1];
    if last == k {
      assert k !in init;
      TotalFrame(init, counts, k, counts[k] + 1);
    } else {
      TotalBump(init, counts, k);
    }
  }

  /** The counts sum to the number of keys counted. */
  lemma {:induction false} TallyTotal(ks: seq<string>)
    ensures Total(FirstSeen(ks), Tally(ks)) == |ks|
  {
    if ks != [] {
      var init := ks[..|ks| - 1];
      var k := ks[|ks| - 1];
      assert ks == init + [k];
      var r, m := FirstSeen(init), Tally(init);
      TallyTotal(init);
      CountSnoc(init, k, m, r);
      if k in r {
        TotalBump(r, m, k);
      } else {
        TotalFrame(r, m, k, 1);
        assert (r + [k])[..|r|] == r;
        assert Total(r + [k], m[k := 1]) == Total(r, m[k := 1]) + 1;
      }
    }
  }

  /** `Tally` and `FirstSeen` together always form a well-shaped counter. */
  lemma TallyShape(ks: seq<string>)
    ensures CounterShape(Tally(ks), FirstSeen(ks))
  {
    forall k
      ensures k in Tally(ks) <==> k in ks
    {
      TallyAt(ks, k);
    }
  }

  /** A `collections.Counter` of strings: the counts, and the keys in insertion order. */
  class Counter {
    var counts: map<string, nat>
    var order: seq<string>
    /** The keys counted so far, in order. */
    ghost var history: seq<string>

    ghost predicate Valid()
      reads this
    {
      counts == Tally(history) && order == FirstSeen(history)
    }

    /** `Counter()` */
    constructor ()
      ensures Valid() && history == []
      ensures counts == map[] && order == []
    {
      counts := map[];
      order := [];
      history := [];
    }

    /** `counter[key] += 1`: a missing key counts as 0 and is appended to the order. */
    method Increment(key: string)
      requires Valid()
      modifies this
      ensures Valid() && history == old(history) + [key]
      ensures counts == old(counts)[key := (if key in old(counts) then old(counts)[key] else 0) + 1]
      ensures order == if key in old(counts) then old(order) else old(order) + [key]
    {
      CountSnoc(history, key, counts, order);
      if key !in counts {
        order := order + [key];
      }
      counts := counts[key := (if key in counts then counts[key] else 0) + 1];
      history := history + [key];
    }
  }
}
