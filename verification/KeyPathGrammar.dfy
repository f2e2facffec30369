/** Which key paths are accepted, and with what error the others are refused. */
module KeyPathGrammar {
  import opened Basics
  import opened Text
  import opened KeyPath

  /** A character between quotes, with or without a backslash before it. */
  datatype Quoted = Quoted(c: char, escaped: bool)

  /** A segment as it may be spelled: empty quotes, then perhaps quoted text, then bare text. */
  datatype Spelling = Spelling(blanks: nat, quoted: seq<Quoted>, tail: string)

  function QuotedText(q: seq<Quoted>): string {
    if q == [] then "" else (if q[0].escaped then ['\\', q[0].c] else [q[0].c]) + QuotedText(q[1..])
  }

  function Chars(q: seq<Quoted>): string { seq(|q|, i requires 0 <= i < |q| => q[i].c) }

  function BlanksText(n: nat): string { if n == 0 then "" else "\"\"" + BlanksText(n - 1) }

  function SpellingText(s: Spelling): string {
    BlanksText(s.blanks) + (if s.quoted == [] then "" else "\"" + QuotedText(s.quoted) + "\"") + s.tail
  }

  function Meaning(s: Spelling): string { Chars(s.quoted) + s.tail }

  predicate QuotedOk(q: seq<Quoted>) {
    forall i :: 0 <= i < |q| ==> q[i].escaped || (q[i].c != '"' && q[i].c != '\\')
  }

  /** The quoted text escapes what needs it, the bare text has no dot and no quote, and not all is empty. */
  predicate SpellingOk(s: Spelling) { QuotedOk(s.quoted) && BareOk(s.tail) && Meaning(s) != "" }

  /** Spelled segments joined with dots. */
  predicate Spells(path: string, spellings: seq<Spelling>, segments: seq<string>)
    decreases |spellings|
  {
    && |spellings| == |segments| > 0
    && SpellingOk(spellings[0]) && Meaning(spellings[0]) == segments[0]
    && var text := SpellingText(spellings[0]);
       if |spellings| == 1 then path == text
       else text + "." <= path && Spells(path[|text| + 1..], spellings[1..], segments[1..])
  }

  // ---------------------------------------------------------------- spelled segments are accepted

  lemma {:induction false} ScanBlanks(n: nat, rest: string, done: seq<string>)
    ensures Scan(BlanksText(n) + rest, done, "", false) == Scan(rest, done, "", false)
  {
    if n == 0 {
      assert "" + rest == rest;
    } else {
      var text, more := BlanksText(n) + rest, BlanksText(n - 1) + rest;
      assert text[0] == '"' && text[1..][0] == '"' && text[1..][1..] == more;
      ScanBlanks(n - 1, rest, done);
    }
  }

  lemma {:induction false} ScanQuoted(q: seq<Quoted>, rest: string, done: seq<string>, segment: string)
    requires QuotedOk(q)
    ensures Scan(QuotedText(q) + rest, done, segment, true) == Scan(rest, done, segment + Chars(q), true)
    decreases |q|
  {
    if q == [] {
      assert QuotedText(q) + rest == rest && segment + Chars(q) == segment;
    } else {
      var text, more := QuotedText(q) + rest, QuotedText(q[1..]) + rest;
      assert if q[0].escaped then text[0] == '\\' && text[1] == q[0].c && text[2..] == more else text[0] == q[0].c && text[1..] == more;
      assert Scan(text, done, segment, true) == Scan(more, done, segment + [q[0].c], true);
      hide Scan, QuotedText;
      ScanQuoted(q[1..], rest, done, segment + [q[0].c]);
      assert segment + [q[0].c] + Chars(q[1..]) == segment + Chars(q);
    }
  }

  lemma ScanSpelling(s: Spelling, rest: string, done: seq<string>)
    requires SpellingOk(s)
    ensures Scan(SpellingText(s) + rest, done, "", false) == Scan(rest, done, Meaning(s), false)
  {
    hide Scan, BlanksText, QuotedText, QuotedOk, BareOk;
    var inQuotes := if s.quoted == [] then "" else "\"" + QuotedText(s.quoted) + "\"";
    var behind := s.tail + rest;
    assert SpellingText(s) + rest == BlanksText(s.blanks) + (inQuotes + behind);
    ScanBlanks(s.blanks, inQuotes + behind, done);
    if s.quoted == [] {
      assert inQuotes + behind == behind;
    } else {
      assert inQuotes + behind == "\"" + (QuotedText(s.quoted) + ("\"" + behind));
      ScanQuotes(QuotedText(s.quoted) + ("\"" + behind), behind, done, Chars(s.quoted));
      ScanQuoted(s.quoted, "\"" + behind, done, "");
      assert "" + Chars(s.quoted) == Chars(s.quoted);
    }
    ScanBare(s.tail, rest, done, Chars(s.quoted));
  }

  lemma ScanQuotes(inside: string, behind: string, done: seq<string>, segment: string)
    ensures Scan("\"" + inside, done, "", false) == Scan(inside, done, "", true)
    ensures Scan("\"" + behind, done, segment, true) == Scan(behind, done, segment, false)
  {
    assert ("\"" + inside)[1..] == inside && ("\"" + behind)[1..] == behind;
  }

  lemma {:induction false} ScanSpelled(path: string, spellings: seq<Spelling>, segments: seq<string>, done: seq<string>)
    requires Spells(path, spellings, segments)
    ensures Scan(path, done, "", false) == Ok(done + segments)
    decreases |spellings|
  {
    hide Scan, SpellingText, SpellingOk, Meaning;
    var text := SpellingText(spellings[0]);
    assert segments[0] != "" by { MeansSomething(spellings[0]); }
    if |spellings| == 1 {
      ScanSpelling(spellings[0], "", done);
      ScanDot("", done, segments[0]);
      assert text + "" == text && segments == [segments[0]];
    } else {
      var rest := path[|text| + 1..];
      assert path == text + ("." + rest);
      ScanSpelling(spellings[0], "." + rest, done);
      ScanDot(rest, done, segments[0]);
      ScanSpelled(rest, spellings[1..], segments[1..], done + [segments[0]]);
      assert done + [segments[0]] + segments[1..] == done + segments;
    }
  }

  lemma MeansSomething(s: Spelling)
    requires SpellingOk(s)
    ensures Meaning(s) != ""
  {
  }

  // ---------------------------------------------------------------- and nothing else is

  /** Inside quotes: up to the closing one. */
  lemma {:induction false} QuotedPart(rest: string, done: seq<string>, segment: string) returns (q: seq<Quoted>, behind: string)
    requires Scan(rest, done, segment, true).Ok?
    ensures QuotedOk(q) && rest == QuotedText(q) + "\"" + behind
    ensures Scan(behind, done, segment + Chars(q), false) == Scan(rest, done, segment, true)
    decreases |rest|
  {
    if rest[0] == '"' {
      q, behind := [], rest[1..];
      assert segment + Chars(q) == segment;
    } else if rest[0] == '\\' {
      q, behind := QuotedPart(rest[2..], done, segment + [rest[1]]);
      assert segment + [rest[1]] + Chars(q) == segment + Chars([Quoted(rest[1], true)] + q);
      q := [Quoted(rest[1], true)] + q;
      assert q[1..] + [] == q[1..];
      assert rest == ['\\', rest[1]] + rest[2..];
    } else {
      q, behind := QuotedPart(rest[1..], done, segment + [rest[0]]);
      assert segment + [rest[0]] + Chars(q) == segment + Chars([Quoted(rest[0], false)] + q);
      q := [Quoted(rest[0], false)] + q;
      assert rest == [rest[0]] + rest[1..];
    }
  }

  /** Bare text: up to the next dot or the end. */
  lemma {:induction false} BarePart(rest: string, done: seq<string>, segment: string) returns (tail: string, more: Option<string>)
    requires segment != "" && Scan(rest, done, segment, false).Ok?
    ensures BareOk(tail) && rest == tail + if more.Some? then "." + more.value else ""
    ensures Scan(rest, done, segment, false)
         == if more.Some? then Scan(more.value, done + [segment + tail], "", false) else Ok(done + [segment + tail])
    decreases |rest|
  {
    if rest == "" {
      tail, more := "", None;
      assert segment + "" == segment;
    } else if rest[0] == '.' {
      tail, more := "", Some(rest[1..]);
      assert segment + "" == segment;
    } else {
      tail, more := BarePart(rest[1..], done, segment + [rest[0]]);
      assert segment + [rest[0]] + tail == segment + ([rest[0]] + tail);
      tail := [rest[0]] + tail;
    }
  }

  /** A segment that starts with bare text. */
  lemma BareSegment(rest: string, done: seq<string>) returns (s: Spelling, more: Option<string>)
    requires rest != "" && rest[0] != '"' && Scan(rest, done, "", false).Ok?
    ensures SpellingOk(s) && rest == SpellingText(s) + if more.Some? then "." + more.value else ""
    ensures Scan(rest, done, "", false)
         == if more.Some? then Scan(more.value, done + [Meaning(s)], "", false) else Ok(done + [Meaning(s)])
  {
    var tail;
    assert "" + [rest[0]] == [rest[0]];
    tail, more := BarePart(rest[1..], done, [rest[0]]);
    s := Spelling(0, [], [rest[0]] + tail);
    assert SpellingText(s) == [rest[0]] + tail && Meaning(s) == [rest[0]] + tail;
  }

  /** From an opening quote to the closing one. */
  lemma QuotedHead(rest: string, done: seq<string>) returns (q: seq<Quoted>, behind: string)
    requires rest != "" && rest[0] == '"' && Scan(rest, done, "", false).Ok?
    ensures QuotedOk(q) && rest == "\"" + QuotedText(q) + "\"" + behind
    ensures Scan(behind, done, Chars(q), false) == Scan(rest, done, "", false)
  {
    q, behind := QuotedPart(rest[1..], done, "");
    assert "" + Chars(q) == Chars(q);
  }

  /** A segment whose quotes hold something. */
  lemma QuotedSegment(q: seq<Quoted>, behind: string, done: seq<string>) returns (s: Spelling, more: Option<string>)
    requires q != [] && QuotedOk(q) && Scan(behind, done, Chars(q), false).Ok?
    ensures SpellingOk(s) && "\"" + QuotedText(q) + "\"" + behind == SpellingText(s) + if more.Some? then "." + more.value else ""
    ensures Scan(behind, done, Chars(q), false)
         == if more.Some? then Scan(more.value, done + [Meaning(s)], "", false) else Ok(done + [Meaning(s)])
  {
    hide Scan, QuotedText;
    var tail;
    tail, more := BarePart(behind, done, Chars(q));
    s := Spelling(0, q, tail);
    assert SpellingText(s) == "\"" + QuotedText(q) + "\"" + tail;
  }

  lemma {:induction false} OneSegment(rest: string, done: seq<string>) returns (s: Spelling, more: Option<string>)
    requires Scan(rest, done, "", false).Ok?
    ensures SpellingOk(s) && rest == SpellingText(s) + if more.Some? then "." + more.value else ""
    ensures Scan(rest, done, "", false)
         == if more.Some? then Scan(more.value, done + [Meaning(s)], "", false) else Ok(done + [Meaning(s)])
    decreases |rest|
  {
    hide Scan, SpellingText, QuotedText, Chars, Meaning, SpellingOk, QuotedOk;
    SomethingThere(rest, done);
    if rest[0] != '"' {
      s, more := BareSegment(rest, done);
    } else {
      var q, behind := QuotedHead(rest, done);
      if q != [] {
        s, more := QuotedSegment(q, behind, done);
      } else {
        EmptyQuotes(behind);
        s, more := OneSegment(behind, done);
        MoreBlanks(s);
        s := s.(blanks := s.blanks + 1);
      }
    }
  }

  lemma SomethingThere(rest: string, done: seq<string>)
    requires Scan(rest, done, "", false).Ok?
    ensures rest != ""
  {
  }

  lemma EmptyQuotes(behind: string)
    ensures Chars([]) == "" && "\"" + QuotedText([]) + "\"" + behind == "\"\"" + behind
  {
  }

  lemma MoreBlanks(s: Spelling)
    ensures var more := s.(blanks := s.blanks + 1);
            SpellingText(more) == "\"\"" + SpellingText(s) && Meaning(more) == Meaning(s) && (SpellingOk(more) <==> SpellingOk(s))
  {
  }

  lemma {:induction false} AllSegments(rest: string, done: seq<string>) returns (spellings: seq<Spelling>, segments: seq<string>)
    requires Scan(rest, done, "", false).Ok?
    ensures Spells(rest, spellings, segments) && Scan(rest, done, "", false) == Ok(done + segments)
    decreases |rest|
  {
    hide Scan, SpellingText, SpellingOk, Meaning;
    var s, more := OneSegment(rest, done);
    var text := SpellingText(s);
    if more.None? {
      spellings, segments := [s], [Meaning(s)];
      assert text + "" == text;
    } else {
      assert rest == (text + ".") + more.value;
      assert rest[|text| + 1..] == more.value;
      spellings, segments := AllSegments(more.value, done + [Meaning(s)]);
      assert done + [Meaning(s)] + segments == done + ([Meaning(s)] + segments);
      spellings, segments := [s] + spellings, [Meaning(s)] + segments;
      assert spellings[1..] == spellings[1..] && segments[1..] == segments[1..];
    }
  }

  /** A path is accepted exactly when it is more than white space and spells its segments. */
  lemma {:induction false} ParseIffSpelled(path: string, segments: seq<string>)
    ensures Parse(path) == Ok(segments) <==> Trim(path) != "" && exists spellings :: Spells(path, spellings, segments)
  {
    hide Trim, Scan, Spells;
    if Parse(path) == Ok(segments) {
      var spellings, found := AllSegments(path, []);
      assert [] + found == found;
    }
    if Trim(path) != "" && exists spellings :: Spells(path, spellings, segments) {
      var spellings :| Spells(path, spellings, segments);
      ScanSpelled(path, spellings, segments, []);
      assert [] + segments == segments;
    }
  }

  /** Segments spelled right and followed by a dot are passed over, whatever comes behind. */
  lemma {:induction false} ScanPast(path: string, spellings: seq<Spelling>, segments: seq<string>, rest: string, done: seq<string>)
    requires Spells(path, spellings, segments)
    ensures Scan(path + "." + rest, done, "", false) == Scan(rest, done + segments, "", false)
    decreases |spellings|
  {
    hide Scan, SpellingText, SpellingOk, Meaning;
    var text := SpellingText(spellings[0]);
    assert segments[0] != "" by { MeansSomething(spellings[0]); }
    if |spellings| == 1 {
      assert path + "." + rest == text + ("." + rest) && segments == [segments[0]];
      ScanSpelling(spellings[0], "." + rest, done);
      ScanDot(rest, done, segments[0]);
    } else {
      var more := path[|text| + 1..];
      assert path + "." + rest == text + ("." + (more + "." + rest));
      ScanSpelling(spellings[0], "." + (more + "." + rest), done);
      ScanDot(more + "." + rest, done, segments[0]);
      ScanPast(more, spellings[1..], segments[1..], rest, done + [segments[0]]);
      assert done + [segments[0]] + segments[1..] == done + segments;
    }
  }

  /** Nothing, or segments spelled right with a dot behind each. */
  ghost predicate Before(front: string, done: seq<string>) {
    || (front == "" && done == [])
    || exists path, spellings :: front == path + "." && Spells(path, spellings, done)
  }

  /** The four ways to fail where a segment should be. */
  lemma ScanErrors(done: seq<string>, blanks: nat, s: Spelling, q: seq<Quoted>, rest: string)
    requires SpellingOk(s) && QuotedOk(q)
    ensures Scan(BlanksText(blanks), done, "", false) == Scan(BlanksText(blanks) + "." + rest, done, "", false) == Err(EmptySegment)
    ensures Scan(SpellingText(s) + "\"" + rest, done, "", false) == Err(InvalidQuote)
    ensures Scan(BlanksText(blanks) + "\"" + QuotedText(q), done, "", false) == Err(UnterminatedQuote)
    ensures Scan(BlanksText(blanks) + "\"" + QuotedText(q) + "\\", done, "", false) == Err(UnterminatedEscape)
  {
    ScanEnds(done, Meaning(s), rest, Chars(q));
    hide Scan, SpellingText, QuotedText, BlanksText, SpellingOk, QuotedOk;
    var b := BlanksText(blanks);
    assert b + "" == b && b + ("." + rest) == b + "." + rest;
    ScanBlanks(blanks, "", done);
    ScanBlanks(blanks, "." + rest, done);
    ScanSpelling(s, "\"" + rest, done);
    assert SpellingText(s) + ("\"" + rest) == SpellingText(s) + "\"" + rest;
    var inside := QuotedText(q);
    assert b + ("\"" + (inside + "")) == b + "\"" + inside && b + ("\"" + (inside + "\\")) == b + "\"" + inside + "\\";
    ScanBlanks(blanks, "\"" + (inside + ""), done);
    ScanBlanks(blanks, "\"" + (inside + "\\"), done);
    ScanQuotes(inside + "", "", done, "");
    ScanQuotes(inside + "\\", "", done, "");
    ScanQuoted(q, "", done, "");
    ScanQuoted(q, "\\", done, "");
    assert "" + Chars(q) == Chars(q);
  }

  lemma ScanEnds(done: seq<string>, segment: string, rest: string, inside: string)
    requires segment != ""
    ensures Scan("", done, "", false) == Scan("." + rest, done, "", false) == Err(EmptySegment)
    ensures Scan("\"" + rest, done, segment, false) == Err(InvalidQuote)
    ensures Scan("", done, inside, true) == Err(UnterminatedQuote) && Scan("\\", done, inside, true) == Err(UnterminatedEscape)
  {
  }

  predicate RefusedWith(path: string, error: KeyPathError) { Trim(path) != "" ==> Parse(path) == Err(error) }

  /** With which error a path is refused: white space alone is no path; behind segments spelled right, there
      may be nothing where a segment should be, a quote behind a segment's text, quotes that are never closed,
      or a backslash with nothing behind it. */
  lemma ParseErrors(front: string, done: seq<string>, blanks: nat, s: Spelling, q: seq<Quoted>, rest: string)
    requires Before(front, done) && SpellingOk(s) && QuotedOk(q)
    ensures Trim(front) == "" ==> Parse(front) == Err(EmptyPath)
    ensures RefusedWith(front + BlanksText(blanks), EmptySegment) && RefusedWith(front + (BlanksText(blanks) + "." + rest), EmptySegment)
    ensures RefusedWith(front + (SpellingText(s) + "\"" + rest), InvalidQuote)
    ensures RefusedWith(front + (BlanksText(blanks) + "\"" + QuotedText(q)), UnterminatedQuote)
    ensures RefusedWith(front + (BlanksText(blanks) + "\"" + QuotedText(q) + "\\"), UnterminatedEscape)
  {
    hide Scan, SpellingText, QuotedText, BlanksText, SpellingOk, QuotedOk, Trim, Before;
    ScanErrors(done, blanks, s, q, rest);
    ScanBehind(front, done, BlanksText(blanks));
    ScanBehind(front, done, BlanksText(blanks) + "." + rest);
    ScanBehind(front, done, SpellingText(s) + "\"" + rest);
    ScanBehind(front, done, BlanksText(blanks) + "\"" + QuotedText(q));
    ScanBehind(front, done, BlanksText(blanks) + "\"" + QuotedText(q) + "\\");
  }

  lemma ScanBehind(front: string, done: seq<string>, rest: string)
    requires Before(front, done)
    ensures Scan(front + rest, [], "", false) == Scan(rest, done, "", false)
  {
    hide Scan, Spells;
    if front == "" && done == [] {
      assert front + rest == rest;
    } else {
      var path, spellings :| front == path + "." && Spells(path, spellings, done);
      ScanPast(path, spellings, done, rest, []);
      assert [] + done == done;
    }
  }
}
