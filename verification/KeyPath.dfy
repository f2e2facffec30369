/** Dotted configuration key paths with quoted segments. */
module KeyPath {
  import opened Basics
  import opened Text

  datatype KeyPathError = EmptyPath | UnterminatedEscape | EmptySegment | InvalidQuote | UnterminatedQuote

  type Parsed = Result<seq<string>, KeyPathError>

  /** The rest of the path, given the finished segments, the current one and whether it is quoted. */
  function Scan(rest: string, segments: seq<string>, segment: string, quoted: bool): Parsed
    decreases |rest|
  {
    if rest == "" then
      if quoted then Err(UnterminatedQuote) else if segment == "" then Err(EmptySegment) else Ok(segments + [segment])
    else
      var c := rest[0];
      if c == '"' && segment == "" && !quoted then Scan(rest[1..], segments, segment, true)
      else if c == '"' && quoted then Scan(rest[1..], segments, segment, false)
      else if c == '\\' && quoted then
        if |rest| == 1 then Err(UnterminatedEscape) else Scan(rest[2..], segments, segment + [rest[1]], quoted)
      else if c == '.' && !quoted then
        if segment == "" then Err(EmptySegment) else Scan(rest[1..], segments + [segment], "", quoted)
      else if c == '"' then Err(InvalidQuote)
      else Scan(rest[1..], segments, segment + [c], quoted)
  }

  function Parse(path: string): Parsed {
    if Trim(path) == "" then Err(EmptyPath) else Scan(path, [], "", false)
  }

  method ParseKeyPath(path: string) returns (r: Parsed)
    ensures r == Parse(path)
  {
    hide Trim;
    if Trim(path) == "" {
      return Err(EmptyPath);
    }
    var segments: seq<string>, segment, quoted := [], "", false;
    var i := 0;
    assert path[0..] == path;
    while i < |path|
      invariant 0 <= i <= |path|
      invariant Scan(path, [], "", false) == Scan(path[i..], segments, segment, quoted)
    {
      var c := path[i];
      assert path[i..][0] == c && path[i..][1..] == path[i + 1..];
      i := i + 1;
      if c == '"' && segment == "" && !quoted {
        quoted := true;
      } else if c == '"' && quoted {
        quoted := false;
      } else if c == '\\' && quoted {
        if i == |path| {
          return Err(UnterminatedEscape);
        }
        assert path[i - 1..][2..] == path[i + 1..];
        segment := segment + [path[i]];
        i := i + 1;
      } else if c == '.' && !quoted {
        if segment == "" {
          return Err(EmptySegment);
        }
        segments, segment := segments + [segment], "";
      } else if c == '"' {
        return Err(InvalidQuote);
      } else {
        segment := segment + [c];
      }
    }
    if quoted {
      return Err(UnterminatedQuote);
    }
    if segment == "" {
      return Err(EmptySegment);
    }
    r := Ok(segments + [segment]);
  }

  predicate NoneEmpty(segments: seq<string>) { forall i :: 0 <= i < |segments| ==> segments[i] != "" }

  lemma {:induction false} ScanYieldsNonEmpty(rest: string, segments: seq<string>, segment: string, quoted: bool)
    requires NoneEmpty(segments)
    ensures var r := Scan(rest, segments, segment, quoted); r.Ok? ==> r.value != [] && NoneEmpty(r.value)
    decreases |rest|
  {
    if rest != "" {
      var c := rest[0];
      if c == '"' && segment == "" && !quoted {
        ScanYieldsNonEmpty(rest[1..], segments, segment, true);
      } else if c == '"' && quoted {
        ScanYieldsNonEmpty(rest[1..], segments, segment, false);
      } else if c == '\\' && quoted {
        if |rest| > 1 { ScanYieldsNonEmpty(rest[2..], segments, segment + [rest[1]], quoted); }
      } else if c == '.' && !quoted {
        if segment != "" { ScanYieldsNonEmpty(rest[1..], segments + [segment], "", quoted); }
      } else if c != '"' {
        ScanYieldsNonEmpty(rest[1..], segments, segment + [c], quoted);
      }
    }
  }

  /** A successful parse yields at least one segment, none of them empty. */
  lemma ParseYieldsNonEmpty(path: string)
    requires Parse(path).Ok?
    ensures Parse(path).value != [] && NoneEmpty(Parse(path).value)
  {
    ScanYieldsNonEmpty(path, [], "", false);
  }

  // ---------------------------------------------------------------- writing a path

  function Escape(s: string): string {
    if s == "" then ""
    else (if s[0] == '\\' || s[0] == '"' then ['\\', s[0]] else [s[0]]) + Escape(s[1..])
  }

  /** A segment that may be written without quotes. */
  predicate BareOk(s: string) { '.' !in s && '"' !in s }

  function Piece(s: string, bare: bool): string {
    if bare then s else "\"" + Escape(s) + "\""
  }

  /** Pieces joined with dots, each bare or quoted. */
  function Write(segments: seq<string>, bare: seq<bool>): string
    requires |segments| == |bare| > 0
    decreases |segments|
  {
    if |segments| == 1 then Piece(segments[0], bare[0])
    else Piece(segments[0], bare[0]) + "." + Write(segments[1..], bare[1..])
  }

  lemma {:induction false} ScanEscaped(s: string, rest: string, segments: seq<string>, segment: string)
    ensures Scan(Escape(s) + "\"" + rest, segments, segment, true) == Scan(rest, segments, segment + s, false)
    decreases |s|
  {
    var text := Escape(s) + "\"" + rest;
    if s == "" {
      assert text[1..] == rest;
      assert segment + "" == segment;
    } else {
      var tail := Escape(s[1..]) + "\"" + rest;
      ScanEscaped(s[1..], rest, segments, segment + [s[0]]);
      assert segment + [s[0]] + s[1..] == segment + s;
      if s[0] == '\\' || s[0] == '"' {
        assert text[0] == '\\' && text[1] == s[0] && text[2..] == tail;
      } else {
        assert text[0] == s[0] && text[1..] == tail;
      }
    }
  }

  lemma {:induction false} ScanBare(s: string, rest: string, segments: seq<string>, segment: string)
    requires BareOk(s)
    ensures Scan(s + rest, segments, segment, false) == Scan(rest, segments, segment + s, false)
    decreases |s|
  {
    if s == "" {
      assert s + rest == rest && segment + s == segment;
    } else {
      assert (s + rest)[1..] == s[1..] + rest;
      assert s[0] in s;
      ScanBare(s[1..], rest, segments, segment + [s[0]]);
      assert segment + [s[0]] + s[1..] == segment + s;
    }
  }

  lemma ScanPiece(s: string, bare: bool, rest: string, segments: seq<string>)
    requires bare ==> BareOk(s)
    ensures Scan(Piece(s, bare) + rest, segments, "", false) == Scan(rest, segments, s, false)
  {
    assert "" + s == s;
    if bare {
      ScanBare(s, rest, segments, "");
    } else {
      var text := Piece(s, bare) + rest;
      assert text[0] == '"' && text[1..] == Escape(s) + "\"" + rest;
      ScanEscaped(s, rest, segments, "");
    }
  }

  lemma ScanDot(rest: string, segments: seq<string>, segment: string)
    requires segment != ""
    ensures Scan("." + rest, segments, segment, false) == Scan(rest, segments + [segment], "", false)
    ensures Scan("", segments, segment, false) == Ok(segments + [segment])
  {
    assert ("." + rest)[1..] == rest;
  }

  lemma {:induction false} ScanUndoesWrite(segments: seq<string>, bare: seq<bool>, done: seq<string>)
    requires |segments| == |bare| > 0 && NoneEmpty(segments)
    requires forall i :: 0 <= i < |segments| && bare[i] ==> BareOk(segments[i])
    ensures Scan(Write(segments, bare), done, "", false) == Ok(done + segments)
    decreases |segments|
  {
    hide Piece, BareOk, Scan;
    var piece := Piece(segments[0], bare[0]);
    if |segments| == 1 {
      ScanPiece(segments[0], bare[0], "", done);
      ScanDot("", done, segments[0]);
      assert piece + "" == piece && segments == [segments[0]];
    } else {
      var rest := Write(segments[1..], bare[1..]);
      ScanPiece(segments[0], bare[0], "." + rest, done);
      ScanDot(rest, done, segments[0]);
      assert piece + ("." + rest) == Write(segments, bare);
      ScanUndoesWrite(segments[1..], bare[1..], done + [segments[0]]);
      assert done + [segments[0]] + segments[1..] == done + segments;
    }
  }

  /** A written path parses back to its segments, except when it is a single bare segment of nothing
      but white space, which counts as no path at all. */
  lemma {:induction false} ParseUndoesWriteIff(segments: seq<string>, bare: seq<bool>)
    requires |segments| == |bare| > 0 && NoneEmpty(segments)
    requires forall i :: 0 <= i < |segments| && bare[i] ==> BareOk(segments[i])
    ensures Parse(Write(segments, bare)) == Ok(segments) <==> !(|segments| == 1 && bare[0] && Trim(segments[0]) == "")
  {
    hide Trim, Scan;
    ScanUndoesWrite(segments, bare, []);
    assert [] + segments == segments;
    var path, n := Write(segments, bare), |Piece(segments[0], bare[0])|;
    if |segments| > 1 {
      assert path[n] == '.';
      TrimKeepsText(path, n);
    } else if !bare[0] {
      assert path[0] == '"';
      TrimKeepsText(path, 0);
    }
  }

  /** Every list of non-empty segments over any characters survives when all are quoted. */
  lemma {:induction false} ParseUndoesQuoting(segments: seq<string>)
    requires segments != [] && NoneEmpty(segments)
    ensures Parse(Write(segments, seq(|segments|, _ => false))) == Ok(segments)
  {
    ParseUndoesWriteIff(segments, seq(|segments|, _ => false));
  }
}
