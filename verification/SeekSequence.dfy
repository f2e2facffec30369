/** The fuzzy line locator: find a block of lines in a file, trying four comparisons of
    decreasing strictness. */
module SeekSequence {
  import opened Basics
  import opened Text

  /** The four passes, strictest first. */
  datatype Tier = Exact | IgnoreTrailing | IgnoreAround | IgnorePunctuation

  /** Typographic punctuation and odd spaces to their ASCII forms. */
  function NormaliseChar(c: char): (r: char)
  {
    if '\U{2010}' <= c <= '\U{2015}' || c == '\U{2212}' then '-'
    else if '\U{2018}' <= c <= '\U{201b}' then '\''
    else if '\U{201c}' <= c <= '\U{201f}' then '"'
    else if c == '\U{a0}' || '\U{2002}' <= c <= '\U{200a}' || c in {'\U{202f}', '\U{205f}', '\U{3000}'} then ' '
    else c
  }

  function Normalise(s: string): (r: string)
  {
    var t := Trim(s);
    seq(|t|, i requires 0 <= i < |t| => NormaliseChar(t[i]))
  }

  /** What a pass compares instead of the line itself. */
  function Key(tier: Tier, line: string): string
  {
    match tier
    case Exact => line
    case IgnoreTrailing => TrimEnd(line)
    case IgnoreAround => Trim(line)
    case IgnorePunctuation => Normalise(line)
  }

  // ---------------------------------------------------------------- what each pass takes for the same

  const DASHES := {'-', '\U{2010}', '\U{2011}', '\U{2012}', '\U{2013}', '\U{2014}', '\U{2015}', '\U{2212}'}
  const SINGLE_QUOTES := {'\'', '\U{2018}', '\U{2019}', '\U{201a}', '\U{201b}'}
  const DOUBLE_QUOTES := {'"', '\U{201c}', '\U{201d}', '\U{201e}', '\U{201f}'}
  const SPACES := {' ', '\U{a0}', '\U{2002}', '\U{2003}', '\U{2004}', '\U{2005}', '\U{2006}', '\U{2007}', '\U{2008}',
                   '\U{2009}', '\U{200a}', '\U{202f}', '\U{205f}', '\U{3000}'}

  /** Equal, or two dashes, two quotes of one kind or two spaces. */
  predicate Alike(a: char, b: char) {
    || a == b
    || (a in DASHES && b in DASHES)
    || (a in SINGLE_QUOTES && b in SINGLE_QUOTES)
    || (a in DOUBLE_QUOTES && b in DOUBLE_QUOTES)
    || (a in SPACES && b in SPACES)
  }

  lemma NormaliseClass(c: char)
    ensures NormaliseChar(c) == if c in DASHES then '-' else if c in SINGLE_QUOTES then '\''
                                else if c in DOUBLE_QUOTES then '"' else if c in SPACES then ' ' else c
  {
  }

  lemma NormaliseIdentifies(a: char, b: char)
    ensures NormaliseChar(a) == NormaliseChar(b) <==> Alike(a, b)
  {
    hide NormaliseChar;
    NormaliseClass(a);
    NormaliseClass(b);
  }

  /** Two lines are the same to the last pass exactly when, without the white space around them, they
      are alike character by character. */
  lemma LastPassMeans(a: string, b: string)
    ensures Key(IgnorePunctuation, a) == Key(IgnorePunctuation, b)
       <==> |Trim(a)| == |Trim(b)| && forall i :: 0 <= i < |Trim(a)| ==> Alike(Trim(a)[i], Trim(b)[i])
  {
    hide Trim, NormaliseChar, Alike;
    var x, y := Trim(a), Trim(b);
    if Normalise(a) == Normalise(b) {
      forall i | 0 <= i < |x| ensures Alike(x[i], y[i]) {
        assert Normalise(a)[i] == Normalise(b)[i];
        NormaliseIdentifies(x[i], y[i]);
      }
    }
    if |x| == |y| && forall i :: 0 <= i < |x| ==> Alike(x[i], y[i]) {
      forall i | 0 <= i < |x| ensures Normalise(a)[i] == Normalise(b)[i] {
        NormaliseIdentifies(x[i], y[i]);
      }
    }
  }

  /** Nothing but white space differs, and that at the end. */
  ghost predicate SameButTrailing(a: string, b: string) {
    exists text :: text <= a && text <= b && Blank(a[|text|..]) && Blank(b[|text|..])
  }

  ghost predicate AroundText(line: string, text: string) {
    exists before, after :: Blank(before) && Blank(after) && line == before + text + after
  }

  /** Nothing but white space differs, and that at the two ends. */
  ghost predicate SameButAround(a: string, b: string) {
    exists text :: AroundText(a, text) && AroundText(b, text)
  }

  lemma TrailingPassMeans(a: string, b: string)
    ensures Key(IgnoreTrailing, a) == Key(IgnoreTrailing, b) <==> SameButTrailing(a, b)
  {
    TrimEndRemovesSuffix(a);
    TrimEndRemovesSuffix(b);
    hide TrimEnd;
    if SameButTrailing(a, b) {
      var text :| text <= a && text <= b && Blank(a[|text|..]) && Blank(b[|text|..]);
      assert a == text + a[|text|..] && b == text + b[|text|..];
      TrimEndDrops(text, a[|text|..]);
      TrimEndDrops(text, b[|text|..]);
    }
    if TrimEnd(a) == TrimEnd(b) {
      assert TrimEnd(a) <= a && TrimEnd(a) <= b;
    }
  }

  lemma AroundPassMeans(a: string, b: string)
    ensures Key(IgnoreAround, a) == Key(IgnoreAround, b) <==> SameButAround(a, b)
  {
    hide Trim;
    if SameButAround(a, b) {
      var text :| AroundText(a, text) && AroundText(b, text);
      AroundTrims(a, text);
      AroundTrims(b, text);
    }
    if Trim(a) == Trim(b) {
      TrimmedIsAround(a);
      TrimmedIsAround(b);
    }
  }

  lemma AroundTrims(line: string, text: string)
    requires AroundText(line, text)
    ensures Trim(line) == Trim(text)
  {
    hide Trim;
    var before, after :| Blank(before) && Blank(after) && line == before + text + after;
    TrimDrops(before, text, after);
  }

  lemma TrimmedIsAround(line: string)
    ensures AroundText(line, Trim(line))
  {
    hide Trim;
    var i, j := TrimMeans(line);
    assert line == line[..i] + line[i..j] + line[j..];
    assert Blank(line[..i]) && Blank(line[j..]);
  }

  /** The block matches at line `i` under `tier`. */
  predicate Matches(tier: Tier, lines: seq<string>, pattern: seq<string>, i: nat)
    requires i + |pattern| <= |lines|
  {
    forall k :: 0 <= k < |pattern| ==> Key(tier, lines[i + k]) == Key(tier, pattern[k])
  }

  function Rank(tier: Tier): nat
  {
    match tier case Exact => 0 case IgnoreTrailing => 1 case IgnoreAround => 2 case IgnorePunctuation => 3
  }

  /** First matching line at or after `from` in one pass. */
  function FirstMatch(tier: Tier, lines: seq<string>, pattern: seq<string>, from: nat): (r: Option<nat>)
    decreases |lines| - from
  {
    if from + |pattern| > |lines| then None
    else if Matches(tier, lines, pattern, from) then Some(from)
    else if from == |lines| then None
    else FirstMatch(tier, lines, pattern, from + 1)
  }

  lemma {:induction false} FirstMatchIsEarliest(tier: Tier, lines: seq<string>, pattern: seq<string>, from: nat)
    ensures var r := FirstMatch(tier, lines, pattern, from);
            if r.None? then NoMatch(tier, lines, pattern, from)
            else
              && from <= r.value && r.value + |pattern| <= |lines|
              && Matches(tier, lines, pattern, r.value)
              && forall i :: from <= i < r.value ==> !Matches(tier, lines, pattern, i)
    decreases |lines| - from
  {
    hide Matches;
    if from + |pattern| <= |lines| && !Matches(tier, lines, pattern, from) && from < |lines| {
      FirstMatchIsEarliest(tier, lines, pattern, from + 1);
    }
  }

  /** An earliest match is the one the pass finds. */
  lemma {:induction false} EarliestIsFirstMatch(tier: Tier, lines: seq<string>, pattern: seq<string>, from: nat, at: nat)
    requires from <= at && at + |pattern| <= |lines| && Matches(tier, lines, pattern, at)
    requires forall i :: from <= i < at ==> !Matches(tier, lines, pattern, i)
    ensures FirstMatch(tier, lines, pattern, from) == Some(at)
    decreases at - from
  {
    hide Matches;
    if from < at {
      EarliestIsFirstMatch(tier, lines, pattern, from + 1, at);
    }
  }

  /** Where the search begins: end-of-file patterns look only at the last window and ignore `start`. */
  function SearchStart(lines: seq<string>, pattern: seq<string>, start: nat, eof: bool): nat
    requires |pattern| <= |lines|
  {
    if eof then |lines| - |pattern| else start
  }

  function OrElse(first: Option<nat>, second: Option<nat>): Option<nat>
  {
    if first.Some? then first else second
  }

  function Seek(lines: seq<string>, pattern: seq<string>, start: nat, eof: bool): (r: Option<nat>)
  {
    if pattern == [] then Some(start)
    else if |pattern| > |lines| then None
    else
      var from := SearchStart(lines, pattern, start, eof);
      OrElse(FirstMatch(Exact, lines, pattern, from),
      OrElse(FirstMatch(IgnoreTrailing, lines, pattern, from),
      OrElse(FirstMatch(IgnoreAround, lines, pattern, from),
             FirstMatch(IgnorePunctuation, lines, pattern, from))))
  }

  /** A match under one pass is a match under every laxer one. */
  lemma {:induction false} TiersWeaken(strict: Tier, lax: Tier, lines: seq<string>, pattern: seq<string>, i: nat)
    requires i + |pattern| <= |lines| && Rank(strict) <= Rank(lax)
    requires Matches(strict, lines, pattern, i)
    ensures Matches(lax, lines, pattern, i)
  {
    forall k | 0 <= k < |pattern| ensures Key(lax, lines[i + k]) == Key(lax, pattern[k]) {
      var a, b := lines[i + k], pattern[k];
      assert Key(strict, a) == Key(strict, b);
    }
  }

  /** No window from `from` on matches under `tier`. */
  ghost predicate NoMatch(tier: Tier, lines: seq<string>, pattern: seq<string>, from: nat)
  {
    forall i :: from <= i && i + |pattern| <= |lines| ==> !Matches(tier, lines, pattern, i)
  }

  /** The declarative meaning of a search over the windows `from ..= |lines| - |pattern|`:
      some tier has a match, no stricter tier has any, and the index is that tier's first. */
  ghost predicate BestMatch(lines: seq<string>, pattern: seq<string>, from: nat, tier: Tier, at: nat)
  {
    && from <= at && at + |pattern| <= |lines|
    && Matches(tier, lines, pattern, at)
    && (forall i :: from <= i < at ==> !Matches(tier, lines, pattern, i))
    && forall t: Tier :: Rank(t) < Rank(tier) ==> NoMatch(t, lines, pattern, from)
  }

  /** When every stricter pass came up empty, one pass decides the search. */
  lemma {:induction false} PassDecides(tier: Tier, lines: seq<string>, pattern: seq<string>, from: nat)
    requires forall t: Tier :: Rank(t) < Rank(tier) ==> NoMatch(t, lines, pattern, from)
    ensures FirstMatch(tier, lines, pattern, from).None? ==> NoMatch(tier, lines, pattern, from)
    ensures var r := FirstMatch(tier, lines, pattern, from);
            r.Some? ==> BestMatch(lines, pattern, from, tier, r.value) && !NoMatch(IgnorePunctuation, lines, pattern, from)
  {
    hide Matches, FirstMatch;
    FirstMatchIsEarliest(tier, lines, pattern, from);
    var r := FirstMatch(tier, lines, pattern, from);
    if r.Some? {
      TiersWeaken(tier, IgnorePunctuation, lines, pattern, r.value);
    }
  }

  /** A search for a non-empty block answers the earliest window of the strictest pass that has
      any, and answers nothing exactly when no window matches even after normalisation. */
  lemma {:induction false} SeekFindsBest(lines: seq<string>, pattern: seq<string>, start: nat, eof: bool)
    requires pattern != []
    ensures |pattern| > |lines| ==> Seek(lines, pattern, start, eof) == None
    ensures |pattern| <= |lines| ==>
              var from := SearchStart(lines, pattern, start, eof);
              var r := Seek(lines, pattern, start, eof);
              && (r.Some? ==> exists tier :: BestMatch(lines, pattern, from, tier, r.value))
              && (r.None? <==> NoMatch(IgnorePunctuation, lines, pattern, from))
  {
    hide Matches, FirstMatch;
    if |pattern| <= |lines| {
      var from := SearchStart(lines, pattern, start, eof);
      PassDecides(Exact, lines, pattern, from);
      if FirstMatch(Exact, lines, pattern, from).None? {
        PassDecides(IgnoreTrailing, lines, pattern, from);
        if FirstMatch(IgnoreTrailing, lines, pattern, from).None? {
          PassDecides(IgnoreAround, lines, pattern, from);
          if FirstMatch(IgnoreAround, lines, pattern, from).None? {
            PassDecides(IgnorePunctuation, lines, pattern, from);
          }
        }
      }
    }
  }

  /** There is only one best match, so the lemma above determines the answer. */
  lemma {:induction false} BestMatchUnique(lines: seq<string>, pattern: seq<string>, from: nat, t1: Tier, at1: nat, t2: Tier, at2: nat)
    requires BestMatch(lines, pattern, from, t1, at1) && BestMatch(lines, pattern, from, t2, at2)
    ensures t1 == t2 && at1 == at2
  {
    assert Rank(t1) == Rank(t2);
  }

  /** Line-by-line comparison with an early exit. */
  method WindowMatches(tier: Tier, lines: seq<string>, pattern: seq<string>, i: nat) returns (ok: bool)
    requires i + |pattern| <= |lines|
    ensures ok == Matches(tier, lines, pattern, i)
  {
    hide Key;
    ok := true;
    for p := 0 to |pattern|
      invariant ok
      invariant forall k :: 0 <= k < p ==> Key(tier, lines[i + k]) == Key(tier, pattern[k])
    {
      if Key(tier, lines[i + p]) != Key(tier, pattern[p]) {
        ok := false;
        break;
      }
    }
  }

  /** One pass of the search: slide the window over every start that leaves room for the block. */
  method SlideWindow(tier: Tier, lines: seq<string>, pattern: seq<string>, from: nat) returns (r: Option<nat>)
    requires 0 < |pattern| <= |lines|
    ensures r == FirstMatch(tier, lines, pattern, from)
  {
    hide Matches;
    var i := from;
    while i <= |lines| - |pattern|
      invariant from <= i
      invariant FirstMatch(tier, lines, pattern, from) == FirstMatch(tier, lines, pattern, i)
    {
      var ok := WindowMatches(tier, lines, pattern, i);
      if ok {
        return Some(i);
      }
      i := i + 1;
    }
    return None;
  }

  method SeekSequence(lines: seq<string>, pattern: seq<string>, start: nat, eof: bool) returns (r: Option<nat>)
    ensures r == Seek(lines, pattern, start, eof)
  {
    hide FirstMatch;
    if pattern == [] {
      return Some(start);
    }
    if |pattern| > |lines| {
      return None;
    }
    var from := if eof then |lines| - |pattern| else start;
    r := SlideWindow(Exact, lines, pattern, from);
    if r.Some? { return; }
    r := SlideWindow(IgnoreTrailing, lines, pattern, from);
    if r.Some? { return; }
    r := SlideWindow(IgnoreAround, lines, pattern, from);
    if r.Some? { return; }
    r := SlideWindow(IgnorePunctuation, lines, pattern, from);
  }
}
