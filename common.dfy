/** Small generic vocabulary shared by the other modules: an optional value,
    substring occurrence on strings, distinctness and position in a sequence. */
module Common {

  datatype Option<T> = None | Some(value: T)

  /** `t` occurs in `s` starting at index `k`. */
  predicate At(s: string, k: nat, t: string)
  {
    k + |t| <= |s| && s[k..k + |t|] == t
  }

  /** `t` is a substring of `s` (Python's `t in s`). */
  predicate Contains(s: string, t: string)
  {
    exists k: nat | k <= |s| :: At(s, k, t)
  }

  /** `t` occurs in `s` starting at index `k`, checked one character at a time;
      the same as `At` (`StartsAtIsAt`), in a form the verifier unfolds lazily. */
  predicate StartsAt(s: string, k: nat, t: string)
    decreases |t|
  {
    k + |t| <= |s| && (t == [] || (s[k] == t[0] && StartsAt(s, k + 1, t[1..])))
  }

  lemma {:induction false} StartsAtIsAt(s: string, k: nat, t: string)
    ensures StartsAt(s, k, t) <==> At(s, k, t)
    decreases |t|
  {
    if t != [] && k + |t| <= |s| {
      StartsAtIsAt(s, k + 1, t[1..]);
      var slice := s[k..k + |t|];
      assert slice[0] == s[k] && slice[1..] == s[k + 1..k + 1 + |t[1..]|];
      if s[k] == t[0] && At(s, k + 1, t[1..]) {
        assert slice == [t[0]] + t[1..] == t;
      }
    }
  }

  /** Two occurrences back to back are an occurrence of the concatenation. */
  lemma AtJoin(s: string, k: nat, a: string, b: string)
    requires At(s, k, a) && At(s, k + |a|, b)
    ensures At(s, k, a + b)
  {
    assert s[k..k + |a + b|] == s[k..k + |a|] + s[k + |a|..k + |a| + |b|];
  }

  /** An occurrence of a concatenation is an occurrence of each part, back to back. */
  lemma AtSplit(s: string, k: nat, a: string, b: string)
    requires At(s, k, a + b)
    ensures At(s, k, a) && At(s, k + |a|, b)
  {
    assert s[k..k + |a|] == (a + b)[..|a|];
    assert s[k + |a|..k + |a| + |b|] == (a + b)[|a|..];
  }

  /** Every slice of `s` occurs in `s` where it was cut. */
  lemma AtSlice(s: string, i: nat, j: nat)
    requires i <= j <= |s|
    ensures At(s, i, s[i..j])
  {
  }

  /** The first character of an occurrence. */
  lemma AtFirst(s: string, k: nat, t: string)
    requires At(s, k, t) && |t| > 0
    ensures k < |s| && s[k] == t[0]
  {
    assert s[k..k + |t|][0] == t[0];
  }

  /** Each character of an occurrence. */
  lemma AtIndex(s: string, k: nat, t: string, j: nat)
    requires At(s, k, t) && j < |t|
    ensures s[k + j] == t[j]
  {
    assert s[k..k + |t|][j] == t[j];
  }

  /** An occurrence determines the slice it covers. */
  lemma AtIsSlice(s: string, k: nat, t: string)
    requires At(s, k, t)
    ensures s[k..k + |t|] == t
  {
  }

  predicate Distinct<T(==)>(s: seq<T>)
  {
    forall i, j :: 0 <= i < j < |s| ==> s[i] != s[j]
  }

  /** Position of `x` in `s`; the only one when `s` is `Distinct`. */
  function IndexOf<T(==)>(s: seq<T>, x: T): (r: nat)
    requires x in s
    ensures r < |s| && s[r] == x
    ensures forall j :: 0 <= j < r ==> s[j] != x
  {
    if s[0] == x then 0 else 1 + IndexOf(s[1..], x)
  }

  lemma IndexOfDistinct<T>(s: seq<T>, i: nat)
    requires Distinct(s) && i < |s|
    ensures IndexOf(s, s[i]) == i
  {
  }

  function Min(a: int, b: int): int
  {
    if a <= b then a else b
  }
}
