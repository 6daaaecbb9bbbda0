/** The line parser of the analyzer: decides whether one frps log line records a
    user connection and extracts the client name and the source IP.

    The two regular expressions of the source are written here as fixed lists of
    items, each a literal text or a `[class]+` run:
      Pattern1  `\[\w+\] \[([\w.-]+)\] get a user connection \[([\d.]+):\d+\]`
      Pattern2  `\[\w+\] \[\w+\] \[([\w.-]+)\] get a user connection \[([\d.]+):\d+\]`
    Every run in them is followed by a literal starting outside its class (`]` or
    `:`), so a
    backtracking matcher can only succeed with each run at its maximal extent; the
    items are therefore matched left to right with maximal runs (`Determinate`), and
    a match is fixed by its start position. `Search` tries the start positions from
    the left, as Python's `re.search` does. */
module LineParser {
  import opened Common

  datatype Event = Event(name: string, ip: string)

  /** `\d`, restricted to ASCII digits. */
  predicate IsDigit(c: char)
  {
    '0' <= c <= '9'
  }

  /** `\w`, restricted to ASCII letters, digits and underscore. */
  predicate IsWordChar(c: char)
  {
    IsDigit(c) || 'a' <= c <= 'z' || 'A' <= c <= 'Z' || c == '_'
  }

  /** The character classes the two patterns repeat with `+`. */
  datatype CharClass = Word | NameChar | IpChar | Digit

  predicate InClass(c: char, k: CharClass)
  {
    match k
    case Word => IsWordChar(c)
    case NameChar => IsWordChar(c) || c == '.' || c == '-'
    case IpChar => IsDigit(c) || c == '.'
    case Digit => IsDigit(c)
  }

  /** A non-empty string over one class: what `[...]+` can capture. */
  predicate IsRun(s: string, k: CharClass)
  {
    |s| > 0 && forall j :: 0 <= j < |s| ==> InClass(s[j], k)
  }

  /** End of the maximal run of class `k` that starts at `i`. */
  function RunEnd(s: string, i: nat, k: CharClass): (e: nat)
    requires i <= |s|
    ensures i <= e <= |s|
    decreases |s| - i
  {
    if i == |s| || !InClass(s[i], k) then i else RunEnd(s, i + 1, k)
  }

  /** `RunEnd` stops at the first character outside the class, or at the end. */
  lemma {:induction false} RunEndMaximal(s: string, i: nat, k: CharClass)
    requires i <= |s|
    ensures forall j :: i <= j < RunEnd(s, i, k) ==> InClass(s[j], k)
    ensures RunEnd(s, i, k) == |s| || !InClass(s[RunEnd(s, i, k)], k)
    decreases |s| - i
  {
    if i < |s| && InClass(s[i], k) {
      RunEndMaximal(s, i + 1, k);
    }
  }

  /** The maximal run starting at `i`, when not empty, is a run of its class. */
  lemma RunEndIsRun(s: string, i: nat, k: CharClass)
    requires i <= |s| && RunEnd(s, i, k) > i
    ensures IsRun(s[i..RunEnd(s, i, k)], k)
  {
    RunEndMaximal(s, i, k);
  }

  /** A run of class `k` that is followed by a character outside `k` ends where `RunEnd` says. */
  lemma {:induction false} RunEndAt(s: string, i: nat, k: CharClass, e: nat)
    requires i <= e < |s|
    requires forall j :: i <= j < e ==> InClass(s[j], k)
    requires !InClass(s[e], k)
    ensures RunEnd(s, i, k) == e
    decreases e - i
  {
    if i < e {
      RunEndAt(s, i + 1, k, e);
    }
  }

  /** The characters of a run that occurs at `i` are all in its class. */
  lemma AtRun(s: string, i: nat, t: string, k: CharClass)
    requires At(s, i, t) && IsRun(t, k)
    ensures i + |t| <= |s|
    ensures forall j :: i <= j < i + |t| ==> InClass(s[j], k)
  {
    forall j | i <= j < i + |t|
      ensures InClass(s[j], k)
    {
      AtIndex(s, i, t, j - i);
    }
  }

  // ---------------------------------------------------------------------------
  // The two patterns.

  /** One element of a fixed pattern: a literal text, or `[class]+`, captured or not. */
  datatype Item = Lit(t: string) | Run(k: CharClass, capture: bool)

  /** `\[\w+\] ` */
  const TagItems: seq<Item> := [Lit("["), Run(Word, false), Lit("] ")]

  /** `\[([\w.-]+)\] get a user connection \[([\d.]+):\d+\]` */
  const ConnectionItems: seq<Item> :=
    [Lit("["), Run(NameChar, true), Lit("] get a user connection ["),
     Run(IpChar, true), Lit(":"), Run(Digit, false), Lit("]")]

  datatype Pattern = Pattern1 | Pattern2

  /** Pattern 1 is one tag and the connection text; pattern 2 has one more tag in front. */
  function Items(pat: Pattern): seq<Item>
  {
    match pat
    case Pattern1 => TagItems + ConnectionItems
    case Pattern2 => TagItems + (TagItems + ConnectionItems)
  }

  /** The classes of the capturing runs, in order. */
  function CaptureClasses(items: seq<Item>): seq<CharClass>
  {
    if items == [] then []
    else (if items[0].Run? && items[0].capture then [items[0].k] else []) + CaptureClasses(items[1..])
  }

  /** Every run is immediately followed by a literal whose first character is
      outside the run's class, so the run cannot extend into what comes next and
      never has to give characters back. */
  predicate Determinate(items: seq<Item>)
  {
    items == [] ||
    ((items[0].Run? ==> |items| > 1 && items[1].Lit? && |items[1].t| > 0 && !InClass(items[1].t[0], items[0].k))
     && Determinate(items[1..]))
  }

  /** The items matched left to right from `p`, each run taking its maximal extent:
      the end of the match and the captured runs. */
  function MatchItems(s: string, p: nat, items: seq<Item>): (r: Option<(nat, seq<string>)>)
    requires p <= |s|
    ensures r.Some? ==> p <= r.value.0 <= |s|
    decreases |items|
  {
    if items == [] then Some((p, []))
    else if items[0].Lit? then
      var t := items[0].t;
      if StartsAt(s, p, t) then MatchItems(s, p + |t|, items[1..]) else None
    else
      var e := RunEnd(s, p, items[0].k);
      if e == p then None
      else AfterCaptures(if items[0].capture then [s[p..e]] else [], MatchItems(s, e, items[1..]))
  }

  /** Prefixes `caps` to the captures of a match. */
  function AfterCaptures(caps: seq<string>, r: Option<(nat, seq<string>)>): Option<(nat, seq<string>)>
  {
    if r.None? then None else Some((r.value.0, caps + r.value.1))
  }

  /** One capture per capturing run, each a run of that run's class. */
  lemma {:induction false} MatchItemsCaptures(s: string, p: nat, items: seq<Item>)
    requires p <= |s| && MatchItems(s, p, items).Some?
    ensures |MatchItems(s, p, items).value.1| == |CaptureClasses(items)|
    ensures forall i :: 0 <= i < |CaptureClasses(items)| ==>
      IsRun(MatchItems(s, p, items).value.1[i], CaptureClasses(items)[i])
    decreases |items|
  {
    if items != [] {
      var caps := MatchItems(s, p, items).value.1;
      var classes := CaptureClasses(items);
      if items[0].Lit? {
        MatchItemsCaptures(s, p + |items[0].t|, items[1..]);
        assert caps == MatchItems(s, p + |items[0].t|, items[1..]).value.1;
        assert classes == CaptureClasses(items[1..]);
      } else {
        var e := RunEnd(s, p, items[0].k);
        var r := MatchItems(s, e, items[1..]);
        MatchItemsCaptures(s, e, items[1..]);
        if items[0].capture {
          assert caps == [s[p..e]] + r.value.1;
          assert classes == [items[0].k] + CaptureClasses(items[1..]);
          RunEndIsRun(s, p, items[0].k);
        } else {
          assert caps == r.value.1;
          assert classes == CaptureClasses(items[1..]);
        }
      }
    }
  }

  lemma {:induction false} CaptureClassesAppend(a: seq<Item>, b: seq<Item>)
    ensures CaptureClasses(a + b) == CaptureClasses(a) + CaptureClasses(b)
    decreases |a|
  {
    if a == [] {
      assert a + b == b;
    } else {
      assert (a + b)[0] == a[0];
      assert (a + b)[1..] == a[1..] + b;
      CaptureClassesAppend(a[1..], b);
    }
  }

  /** Both patterns capture a name run and then an IP run. */
  lemma PatternCaptures(pat: Pattern)
    ensures CaptureClasses(Items(pat)) == [NameChar, IpChar]
  {
    assert CaptureClasses(TagItems) == [];
    assert CaptureClasses(ConnectionItems) == [NameChar, IpChar];
    CaptureClassesAppend(TagItems, ConnectionItems);
    CaptureClassesAppend(TagItems, TagItems + ConnectionItems);
  }

  lemma {:induction false} DeterminateAppend(a: seq<Item>, b: seq<Item>)
    requires Determinate(a) && Determinate(b)
    ensures Determinate(a + b)
    decreases |a|
  {
    if a == [] {
      assert a + b == b;
    } else {
      assert (a + b)[0] == a[0];
      if |a| > 1 {
        assert (a + b)[1] == a[1];
      }
      assert (a + b)[1..] == a[1..] + b;
      DeterminateAppend(a[1..], b);
    }
  }

  /** Maximal runs are what the backtracking matcher settles on, for both patterns. */
  lemma PatternDeterminate(pat: Pattern)
    ensures Determinate(Items(pat))
  {
    assert Determinate(TagItems);
    assert Determinate(ConnectionItems);
    DeterminateAppend(TagItems, ConnectionItems);
    DeterminateAppend(TagItems, TagItems + ConnectionItems);
  }

  /** The pattern matched with its first character at `p`. */
  function MatchAt(s: string, pat: Pattern, p: nat): (r: Option<Event>)
    ensures r.Some? ==> p < |s|
    ensures r.Some? ==> IsRun(r.value.name, NameChar) && IsRun(r.value.ip, IpChar)
  {
    if p >= |s| then None
    else
      var r := MatchItems(s, p, Items(pat));
      if r.None? then None
      else
        PatternCaptures(pat);
        MatchItemsCaptures(s, p, Items(pat));
        Some(Event(r.value.1[0], r.value.1[1]))
  }

  /** Leftmost match at or after `p` (Python's `re.search`). */
  function Search(s: string, pat: Pattern, p: nat): (r: Option<Event>)
    ensures r.Some? ==> exists k :: p <= k < |s| && MatchAt(s, pat, k) == r
                                    && forall j :: p <= j < k ==> MatchAt(s, pat, j).None?
    ensures r.None? ==> forall k :: p <= k < |s| ==> MatchAt(s, pat, k).None?
    decreases |s| - p
  {
    if p >= |s| then None
    else
      var m := MatchAt(s, pat, p);
      if m.Some? then m
      else
        var r := Search(s, pat, p + 1);
        assert r.None? ==> forall k :: p <= k < |s| ==> MatchAt(s, pat, k).None? by {
          if r.None? {
            forall k | p <= k < |s| ensures MatchAt(s, pat, k).None? {
              if k > p { assert p + 1 <= k < |s|; }
            }
          }
        }
        r
  }

  const InfoMarker := "[I]"

  /** `parse_log_line`: info lines only; pattern 1 first, then pattern 2. */
  function ParseLogLine(line: string): (r: Option<Event>)
    ensures !Contains(line, InfoMarker) ==> r.None?
    ensures r.Some? ==> IsRun(r.value.name, NameChar) && IsRun(r.value.ip, IpChar)
  {
    if !Contains(line, InfoMarker) then None
    else
      var match1 := Search(line, Pattern1, 0);
      var match2 := Search(line, Pattern2, 0);
      if match1.Some? then match1
      else if match2.Some? then match2
      else None
  }

  // ---------------------------------------------------------------------------
  // What the matcher accepts, stated as text.

  /** `pieces` spells `items`: the literal text itself for a literal, a
      non-empty run of its class for a run. */
  predicate Spells(items: seq<Item>, pieces: seq<string>)
  {
    |pieces| == |items| &&
    (items != [] ==> SpellsItem(items[0], pieces[0]) && Spells(items[1..], pieces[1..]))
  }

  function Concat(pieces: seq<string>): string
  {
    if pieces == [] then "" else pieces[0] + Concat(pieces[1..])
  }

  /** The pieces that stand for capturing runs. */
  function Captured(items: seq<Item>, pieces: seq<string>): seq<string>
    requires |pieces| == |items|
  {
    if items == [] then []
    else HeadCapture(items[0], pieces[0]) + Captured(items[1..], pieces[1..])
  }

  /** What one item contributes to the captures when it matched `piece`. */
  function HeadCapture(item: Item, piece: string): seq<string>
  {
    if item.Run? && item.capture then [piece] else []
  }

  /** What a single piece must be to spell a single item. */
  predicate SpellsItem(item: Item, piece: string)
  {
    match item
    case Lit(t) => piece == t
    case Run(k, _) => IsRun(piece, k)
  }

  lemma SpellsTail(items: seq<Item>, pieces: seq<string>)
    requires items != [] && Spells(items, pieces)
    ensures SpellsItem(items[0], pieces[0])
    ensures Spells(items[1..], pieces[1..])
  {
  }

  lemma SpellsCons(items: seq<Item>, first: string, rest: seq<string>)
    requires items != [] && SpellsItem(items[0], first) && Spells(items[1..], rest)
    ensures Spells(items, [first] + rest)
  {
    assert ([first] + rest)[1..] == rest;
  }

  /** The first item matched `first`, and the rest of the items go on after it. */
  lemma MatchItemsHead(s: string, p: nat, items: seq<Item>, first: string)
    requires p <= |s| && items != [] && SpellsItem(items[0], first) && At(s, p, first)
    requires items[0].Run? ==> p + |first| < |s| && !InClass(s[p + |first|], items[0].k)
    ensures MatchItems(s, p, items) ==
      AfterCaptures(HeadCapture(items[0], first), MatchItems(s, p + |first|, items[1..]))
  {
    var e := p + |first|;
    var r := MatchItems(s, e, items[1..]);
    if items[0].Lit? {
      StartsAtIsAt(s, p, first);
      assert r.Some? ==> [] + r.value.1 == r.value.1;
    } else {
      AtRun(s, p, first, items[0].k);
      RunEndAt(s, p, items[0].k, e);
      AtIsSlice(s, p, first);
    }
  }

  /** A match of a non-empty item list begins with a piece spelling its first item. */
  lemma MatchItemsFirst(s: string, p: nat, items: seq<Item>) returns (first: string)
    requires p <= |s| && items != [] && MatchItems(s, p, items).Some?
    ensures SpellsItem(items[0], first) && At(s, p, first)
    ensures MatchItems(s, p, items) ==
      AfterCaptures(HeadCapture(items[0], first), MatchItems(s, p + |first|, items[1..]))
  {
    if items[0].Lit? {
      first := items[0].t;
      StartsAtIsAt(s, p, first);
      var r := MatchItems(s, p + |first|, items[1..]);
      assert r.Some? ==> [] + r.value.1 == r.value.1;
    } else {
      first := s[p..RunEnd(s, p, items[0].k)];
      RunEndIsRun(s, p, items[0].k);
      AtSlice(s, p, p + |first|);
    }
  }

  /** Completeness of the item matcher: text spelling the items is matched, to its
      end, and yields the pieces of the capturing runs. */
  lemma {:induction false} MatchItemsComplete(s: string, p: nat, items: seq<Item>, pieces: seq<string>)
    requires p <= |s| && Determinate(items) && Spells(items, pieces)
    requires At(s, p, Concat(pieces))
    ensures MatchItems(s, p, items) == Some((p + |Concat(pieces)|, Captured(items, pieces)))
    decreases |items|
  {
    if items == [] {
      assert pieces == [];
    } else {
      SpellsTail(items, pieces);
      var rest := Concat(pieces[1..]);
      assert Concat(pieces) == pieces[0] + rest;
      AtSplit(s, p, pieces[0], rest);
      if items[0].Run? {
        RunStopsAtLit(s, p, items, pieces);
      }
      MatchItemsComplete(s, p + |pieces[0]|, items[1..], pieces[1..]);
      MatchItemsCompleteStep(s, p, items, pieces);
    }
  }

  /** The step of the completeness proof: the first piece is matched, then the rest. */
  lemma MatchItemsCompleteStep(s: string, p: nat, items: seq<Item>, pieces: seq<string>)
    requires p <= |s| && items != [] && |pieces| == |items|
    requires SpellsItem(items[0], pieces[0]) && At(s, p, pieces[0])
    requires items[0].Run? ==> p + |pieces[0]| < |s| && !InClass(s[p + |pieces[0]|], items[0].k)
    requires MatchItems(s, p + |pieces[0]|, items[1..])
      == Some((p + |pieces[0]| + |Concat(pieces[1..])|, Captured(items[1..], pieces[1..])))
    ensures MatchItems(s, p, items) == Some((p + |Concat(pieces)|, Captured(items, pieces)))
  {
    MatchItemsHead(s, p, items, pieces[0]);
    assert |Concat(pieces)| == |pieces[0]| + |Concat(pieces[1..])|;
  }

  /** In text spelling determinate items, a leading run is followed by a
      character outside its class. */
  lemma RunStopsAtLit(s: string, p: nat, items: seq<Item>, pieces: seq<string>)
    requires p <= |s| && Determinate(items) && Spells(items, pieces) && At(s, p, Concat(pieces))
    requires items != [] && items[0].Run?
    ensures p + |pieces[0]| < |s| && !InClass(s[p + |pieces[0]|], items[0].k)
  {
    SpellsTail(items, pieces);
    var e := p + |pieces[0]|;
    var rest := Concat(pieces[1..]);
    assert Concat(pieces) == pieces[0] + rest;
    AtSplit(s, p, pieces[0], rest);
    assert pieces[1] == items[1].t;
    assert rest == pieces[1] + Concat(pieces[2..]);
    AtSplit(s, e, pieces[1], Concat(pieces[2..]));
    AtFirst(s, e, pieces[1]);
  }

  /** Soundness of the item matcher: a match is text spelling the items, and its
      captures are the pieces of the capturing runs. */
  lemma {:induction false} MatchItemsSound(s: string, p: nat, items: seq<Item>) returns (pieces: seq<string>)
    requires p <= |s| && MatchItems(s, p, items).Some?
    ensures Spells(items, pieces)
    ensures At(s, p, Concat(pieces))
    ensures MatchItems(s, p, items) == Some((p + |Concat(pieces)|, Captured(items, pieces)))
    decreases |items|
  {
    if items == [] {
      pieces := [];
    } else {
      var first := MatchItemsFirst(s, p, items);
      var rest := MatchItemsSound(s, p + |first|, items[1..]);
      pieces := [first] + rest;
      assert pieces[0] == first && pieces[1..] == rest;
      SpellsCons(items, first, rest);
      assert Concat(pieces) == first + Concat(rest);
      AtJoin(s, p, first, Concat(rest));
    }
  }

  /** Matching a concatenation of item lists is matching one after the other. */
  lemma {:induction false} MatchItemsAppend(s: string, p: nat, a: seq<Item>, b: seq<Item>)
    requires p <= |s|
    ensures MatchItems(s, p, a).None? ==> MatchItems(s, p, a + b).None?
    ensures MatchItems(s, p, a).Some? ==>
      MatchItems(s, p, a + b) == AfterCaptures(MatchItems(s, p, a).value.1, MatchItems(s, MatchItems(s, p, a).value.0, b))
    decreases |a|
  {
    if a == [] {
      assert a + b == b;
      var r := MatchItems(s, p, b);
      assert r.Some? ==> [] + r.value.1 == r.value.1;
    } else {
      assert (a + b)[0] == a[0];
      assert (a + b)[1..] == a[1..] + b;
      if a[0].Lit? {
        var t := a[0].t;
        if StartsAt(s, p, t) {
          MatchItemsAppend(s, p + |t|, a[1..], b);
        }
      } else {
        var e := RunEnd(s, p, a[0].k);
        if e != p {
          MatchItemsAppend(s, e, a[1..], b);
          var x: seq<string> := if a[0].capture then [s[p..e]] else [];
          var r1 := MatchItems(s, e, a[1..]);
          if r1.Some? {
            var r2 := MatchItems(s, r1.value.0, b);
            assert r2.Some? ==> (x + r1.value.1) + r2.value.1 == x + (r1.value.1 + r2.value.1);
          }
        }
      }
    }
  }

  // ---------------------------------------------------------------------------
  // Soundness and completeness of the patterns and of the parser.

  /** Completeness: text spelling the pattern at `p` is matched there, with the
      captured name and IP. */
  lemma MatchAtComplete(s: string, pat: Pattern, p: nat, pieces: seq<string>)
    requires Spells(Items(pat), pieces) && At(s, p, Concat(pieces))
    ensures MatchAt(s, pat, p).Some?
    ensures Captured(Items(pat), pieces) == [MatchAt(s, pat, p).value.name, MatchAt(s, pat, p).value.ip]
  {
    PatternDeterminate(pat);
    PatternCaptures(pat);
    assert Items(pat)[0] == Lit("[");
    assert pieces[0] == "[";
    assert Concat(pieces) == pieces[0] + Concat(pieces[1..]);
    AtSplit(s, p, pieces[0], Concat(pieces[1..]));
    AtFirst(s, p, pieces[0]);
    MatchItemsComplete(s, p, Items(pat), pieces);
    MatchItemsCaptures(s, p, Items(pat));
  }

  /** Soundness: a match at `p` is text spelling the pattern, and its name and IP
      are the pieces of the two capturing runs. */
  lemma MatchAtSound(s: string, pat: Pattern, p: nat) returns (pieces: seq<string>)
    requires MatchAt(s, pat, p).Some?
    ensures Spells(Items(pat), pieces) && At(s, p, Concat(pieces))
    ensures Captured(Items(pat), pieces) == [MatchAt(s, pat, p).value.name, MatchAt(s, pat, p).value.ip]
  {
    PatternCaptures(pat);
    MatchItemsCaptures(s, p, Items(pat));
    pieces := MatchItemsSound(s, p, Items(pat));
  }

  /** A pattern 2 match is a pattern 1 match that starts at its second tag. */
  lemma Pattern2MatchIsPattern1Match(s: string, p: nat) returns (q: nat)
    requires MatchAt(s, Pattern2, p).Some?
    ensures p < q
    ensures MatchAt(s, Pattern1, q) == MatchAt(s, Pattern2, p)
  {
    MatchItemsAppend(s, p, TagItems, Items(Pattern1));
    var tag := MatchItems(s, p, TagItems);
    assert CaptureClasses(TagItems) == [];
    q := tag.value.0;
    assert TagItems[0] == Lit("[");
    assert q > p;
    PatternCaptures(Pattern1);
    PatternCaptures(Pattern2);
  }

  /** Whenever pattern 2 is found, pattern 1 is found too. */
  lemma SearchPattern2Subsumed(s: string, p: nat)
    requires Search(s, Pattern2, p).Some?
    ensures Search(s, Pattern1, p).Some?
  {
    var k :| p <= k < |s| && MatchAt(s, Pattern2, k) == Search(s, Pattern2, p);
    var q := Pattern2MatchIsPattern1Match(s, k);
    assert MatchAt(s, Pattern1, q).Some?;
  }

  /** The `elif match2` branch of `parse_log_line` never decides the result. */
  lemma ParseLogLineIsPattern1(line: string)
    ensures ParseLogLine(line) == if Contains(line, InfoMarker) then Search(line, Pattern1, 0) else None
  {
    if Contains(line, InfoMarker) && Search(line, Pattern2, 0).Some? {
      SearchPattern2Subsumed(line, 0);
    }
  }

  /** Soundness of the parser: an event comes from the leftmost text spelling
      pattern 1 on an info line, and its name and IP are the two captured runs. */
  lemma ParseLogLineSound(line: string) returns (k: nat, pieces: seq<string>)
    requires ParseLogLine(line).Some?
    ensures Contains(line, InfoMarker)
    ensures Spells(Items(Pattern1), pieces) && At(line, k, Concat(pieces))
    ensures Captured(Items(Pattern1), pieces) == [ParseLogLine(line).value.name, ParseLogLine(line).value.ip]
    ensures forall j: nat, other: seq<string> ::
      j < k && Spells(Items(Pattern1), other) ==> !At(line, j, Concat(other))
  {
    ParseLogLineIsPattern1(line);
    var e := ParseLogLine(line);
    k :| 0 <= k < |line| && MatchAt(line, Pattern1, k) == e
         && forall j :: 0 <= j < k ==> MatchAt(line, Pattern1, j).None?;
    pieces := MatchAtSound(line, Pattern1, k);
    forall j: nat, other: seq<string> | j < k && Spells(Items(Pattern1), other)
      ensures !At(line, j, Concat(other))
    {
      if At(line, j, Concat(other)) {
        MatchAtComplete(line, Pattern1, j, other);
      }
    }
  }

  /** Completeness of the parser: an info line holding text that spells either
      pattern yields an event; the leftmost pattern 1 text gives exactly its captures. */
  lemma ParseLogLineComplete(line: string, pat: Pattern, k: nat, pieces: seq<string>)
    requires Contains(line, InfoMarker)
    requires Spells(Items(pat), pieces) && At(line, k, Concat(pieces))
    ensures ParseLogLine(line).Some?
    ensures pat == Pattern1 && (forall j :: 0 <= j < k ==> MatchAt(line, Pattern1, j).None?) ==>
      [ParseLogLine(line).value.name, ParseLogLine(line).value.ip] == Captured(Items(Pattern1), pieces)
  {
    ParseLogLineIsPattern1(line);
    MatchAtComplete(line, pat, k, pieces);
    if pat == Pattern2 {
      assert Search(line, Pattern2, 0).Some?;
      SearchPattern2Subsumed(line, 0);
    } else {
      assert Search(line, Pattern1, 0).Some?;
      if forall j :: 0 <= j < k ==> MatchAt(line, Pattern1, j).None? {
        var r := Search(line, Pattern1, 0);
        var k' :| 0 <= k' < |line| && MatchAt(line, Pattern1, k') == r
                  && forall j :: 0 <= j < k' ==> MatchAt(line, Pattern1, j).None?;
        assert k' == k;
      }
    }
  }
}
