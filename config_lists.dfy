/** The comma-separated settings of the analyzer (`MONITORED_NAMES`,
    `WHITELIST_IPS`): the value is split at every comma, each piece is stripped of
    surrounding whitespace, and pieces that strip to nothing are dropped. */
module ConfigLists {
  import opened Common

  /** Python's `str.isspace` for a single character. */
  predicate IsSpace(c: char)
  {
    c == ' ' || '\t' <= c <= '\r' || '\U{1C}' <= c <= '\U{1F}' || c == '\U{85}' || c == '\U{A0}'
    || c == '\U{1680}' || '\U{2000}' <= c <= '\U{200A}' || c == '\U{2028}' || c == '\U{2029}'
    || c == '\U{202F}' || c == '\U{205F}' || c == '\U{3000}'
  }

  predicate AllSpace(s: string)
  {
    forall k :: 0 <= k < |s| ==> IsSpace(s[k])
  }

  /** Neither end is whitespace: what `strip` leaves. */
  predicate IsStripped(s: string)
  {
    s == [] || (!IsSpace(s[0]) && !IsSpace(s[|s| - 1]))
  }

  const Comma := ','

  /** `sep.join(pieces)` for a one-character separator. */
  function Join(pieces: seq<string>, sep: char): string
  {
    if pieces == [] then ""
    else if |pieces| == 1 then pieces[0]
    else pieces[0] + [sep] + Join(pieces[1..], sep)
  }

  /** `s.split(sep)`: the maximal separator-free pieces, in order; never empty. */
  function Split(s: string, sep: char): (r: seq<string>)
    ensures |r| >= 1
    ensures forall i :: 0 <= i < |r| ==> sep !in r[i]
    ensures Join(r, sep) == s
    decreases |s|
  {
    if sep !in s then [s]
    else
      var i := IndexOf(s, sep);
      assert s[..i] + [sep] + s[i + 1..] == s;
      assert sep !in s[..i] by {
        forall j | 0 <= j < i ensures s[..i][j] != sep {
        }
      }
      [s[..i]] + Split(s[i + 1..], sep)
  }

  /** `s.lstrip()` */
  function StripStart(s: string): (r: string)
    ensures |r| <= |s| && r == s[|s| - |r|..]
    ensures AllSpace(s[..|s| - |r|])
    ensures r == [] || !IsSpace(r[0])
  {
    if s == [] || !IsSpace(s[0]) then s
    else
      var r := StripStart(s[1..]);
      assert s[..|s| - |r|] == [s[0]] + s[1..][..|s| - 1 - |r|];
      r
  }

  /** `s.rstrip()` */
  function StripEnd(s: string): (r: string)
    ensures |r| <= |s| && r == s[..|r|]
    ensures AllSpace(s[|r|..])
    ensures r == [] || !IsSpace(r[|r| - 1])
  {
    if s == [] || !IsSpace(s[|s| - 1]) then s
    else
      var r := StripEnd(s[..|s| - 1]);
      assert s[|r|..] == s[..|s| - 1][|r|..] + [s[|s| - 1]];
      r
  }

  /** `s` is `r` surrounded by whitespace only, with `r` starting at index `i`. */
  predicate Trims(s: string, r: string, i: nat)
  {
    i + |r| <= |s| && s[i..i + |r|] == r && AllSpace(s[..i]) && AllSpace(s[i + |r|..])
  }

  /** `s.strip()`: `s` with its whitespace ends cut off. */
  function Strip(s: string): (r: string)
    ensures |r| <= |s|
    ensures IsStripped(r)
  {
    var left := StripStart(s);
    var r := StripEnd(left);
    assert r != [] ==> r[0] == left[0];
    r
  }

  /** What `strip` cuts off is whitespace only, at both ends. */
  lemma StripTrims(s: string)
    ensures exists i: nat :: Trims(s, Strip(s), i)
  {
    var left := StripStart(s);
    var r := StripEnd(left);
    var i := |s| - |left|;
    assert s[i..i + |r|] == r;
    assert s[i + |r|..] == left[|r|..];
    assert r == Strip(s);
    assert Trims(s, r, i);
  }

  /** A non-empty stripped `r` in `s` starts at the first non-space character of
      `s` and ends after the last one. */
  lemma TrimsEnds(s: string, r: string, i: nat)
    requires IsStripped(r) && Trims(s, r, i) && r != []
    ensures i < |s| && !IsSpace(s[i]) && AllSpace(s[..i])
    ensures i + |r| <= |s| && !IsSpace(s[i + |r| - 1]) && AllSpace(s[i + |r|..])
  {
    assert s[i..i + |r|][0] == s[i];
    assert s[i..i + |r|][|r| - 1] == s[i + |r| - 1];
  }

  lemma FirstNonSpaceUnique(s: string, i: nat, i': nat)
    requires i < |s| && !IsSpace(s[i]) && AllSpace(s[..i])
    requires i' < |s| && !IsSpace(s[i']) && AllSpace(s[..i'])
    ensures i == i'
  {
  }

  lemma LastNonSpaceUnique(s: string, j: nat, j': nat)
    requires 0 < j <= |s| && !IsSpace(s[j - 1]) && AllSpace(s[j..])
    requires 0 < j' <= |s| && !IsSpace(s[j' - 1]) && AllSpace(s[j'..])
    ensures j == j'
  {
  }

  /** Only whitespace around an empty result means only whitespace. */
  lemma TrimsEmpty(s: string, i: nat)
    requires Trims(s, "", i)
    ensures AllSpace(s)
  {
    assert s == s[..i] + s[i..];
  }

  /** `strip` is the only way to cut whitespace ends off so that none is left:
      the stripped string is determined by the two properties above. */
  lemma StripUnique(s: string, r: string, i: nat)
    requires IsStripped(r) && Trims(s, r, i)
    ensures Strip(s) == r
  {
    var r' := Strip(s);
    StripTrims(s);
    var i': nat :| Trims(s, r', i');
    TrimsUnique(s, r, i, r', i');
  }

  /** Two stripped strings that each leave only whitespace around them in `s` are equal. */
  lemma TrimsUnique(s: string, r: string, i: nat, r': string, i': nat)
    requires IsStripped(r) && Trims(s, r, i)
    requires IsStripped(r') && Trims(s, r', i')
    ensures r == r'
  {
    if r != [] && r' != [] {
      TrimsEnds(s, r, i);
      TrimsEnds(s, r', i');
      FirstNonSpaceUnique(s, i, i');
      LastNonSpaceUnique(s, i + |r|, i' + |r'|);
    } else if r != [] {
      TrimsEnds(s, r, i);
      TrimsEmpty(s, i');
    } else if r' != [] {
      TrimsEnds(s, r', i');
      TrimsEmpty(s, i);
    }
  }

  /** The stripped non-empty pieces, in order. */
  function KeepStripped(pieces: seq<string>): (r: seq<string>)
    ensures |r| <= |pieces|
    ensures forall i :: 0 <= i < |r| ==> r[i] != "" && IsStripped(r[i])
  {
    if pieces == [] then []
    else
      var head := Strip(pieces[0]);
      var rest := KeepStripped(pieces[1..]);
      if head == "" then rest else [head] + rest
  }

  /** `[x.strip() for x in value.split(',') if x.strip()]` */
  function ParseList(value: string): (r: seq<string>)
    ensures forall i :: 0 <= i < |r| ==> r[i] != "" && IsStripped(r[i]) && Comma !in r[i]
  {
    var pieces := Split(value, Comma);
    var r := KeepStripped(pieces);
    KeepStrippedAvoids(pieces, Comma);
    r
  }

  /** A character absent from every piece is absent from every kept entry. */
  lemma {:induction false} KeepStrippedAvoids(pieces: seq<string>, c: char)
    requires forall p :: p in pieces ==> c !in p
    ensures forall x :: x in KeepStripped(pieces) ==> c !in x
  {
    if pieces != [] {
      StripSubset(pieces[0], c);
      KeepStrippedAvoids(pieces[1..], c);
    }
  }

  /** Stripping never brings in a character that was not there. */
  lemma StripSubset(s: string, c: char)
    requires c !in s
    ensures c !in Strip(s)
  {
    var r := Strip(s);
    StripTrims(s);
    var i: nat :| Trims(s, r, i);
    forall j | 0 <= j < |r|
      ensures r[j] != c
    {
      assert r[j] == s[i + j];
    }
  }

  /** Splitting a joined list gives the list back when no element holds the separator. */
  lemma {:induction false} SplitJoin(xs: seq<string>, sep: char)
    requires |xs| >= 1 && forall i :: 0 <= i < |xs| ==> sep !in xs[i]
    ensures Split(Join(xs, sep), sep) == xs
    decreases |xs|
  {
    if |xs| > 1 {
      var s := Join(xs, sep);
      var rest := Join(xs[1..], sep);
      assert s == xs[0] + [sep] + rest;
      assert s[|xs[0]|] == sep;
      var i := IndexOf(s, sep);
      assert i == |xs[0]|;
      assert s[..i] == xs[0];
      assert s[i + 1..] == rest;
      SplitJoin(xs[1..], sep);
    }
  }

  /** Entries that are already stripped and non-empty are kept as they are. */
  lemma {:induction false} KeepStrippedKeeps(xs: seq<string>)
    requires forall i :: 0 <= i < |xs| ==> xs[i] != "" && IsStripped(xs[i])
    ensures KeepStripped(xs) == xs
  {
    if xs != [] {
      assert Trims(xs[0], xs[0], 0) by {
        assert xs[0][..0] == "" && xs[0][|xs[0]|..] == "";
      }
      StripUnique(xs[0], xs[0], 0);
      KeepStrippedKeeps(xs[1..]);
    }
  }

  /** An empty setting gives an empty list. */
  lemma ParseListOfEmpty()
    ensures ParseList("") == []
  {
    assert Trims("", "", 0);
    StripUnique("", "", 0);
  }

  /** Round trip: a list of non-empty, stripped, comma-free entries written out
      with commas is parsed back to itself. */
  lemma ParseListJoin(xs: seq<string>)
    requires forall i :: 0 <= i < |xs| ==> xs[i] != "" && IsStripped(xs[i]) && Comma !in xs[i]
    ensures ParseList(Join(xs, Comma)) == xs
  {
    if xs == [] {
      ParseListOfEmpty();
    } else {
      SplitJoin(xs, Comma);
      KeepStrippedKeeps(xs);
    }
  }
}
