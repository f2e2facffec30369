/** The tracker that keeps a turn's net text diff from committed deltas alone, without rereading the
    workspace. */
module TurnDiff {
  import opened Basics
  import opened PatchSyntax
  import opened PatchedFiles
  import opened FileSystem
  import opened PatchApplier

  /** Text at the start of the turn and text now, for the paths seen so far, and for a file that was
      moved the path it came from. */
  datatype Tracked = Tracked(baseline: map<Path, string>, current: map<Path, string>, origins: map<Path, Path>)

  const Untracked := Tracked(map[], map[], map[])

  predicate Seen(t: Tracked, p: Path) { p in t.baseline || p in t.current }

  /** Remember what a path held before its first change. */
  function NoteBaseline(t: Tracked, p: Path, text: Option<string>): Tracked {
    if !Seen(t, p) && text.Some? then t.(baseline := t.baseline[p := text.value]) else t
  }

  function TrackAdd(t: Tracked, p: Path, content: string, overwritten: Option<string>): Tracked {
    var t := NoteBaseline(t, p, overwritten);
    t.(current := t.current[p := content], origins := t.origins - {p})
  }

  function TrackDelete(t: Tracked, p: Path, content: string): Tracked {
    var t := NoteBaseline(t, p, Some(content));
    t.(current := t.current - {p}, origins := t.origins - {p})
  }

  function TrackUpdate(t: Tracked, p: Path, dest: Option<Path>, content: string, overwrittenMove: Option<string>, newContent: string): Tracked {
    var t := NoteBaseline(t, p, Some(content));
    if dest.None? then t.(current := t.current[p := newContent])
    else
      var t := NoteBaseline(t, dest.value, overwrittenMove);
      t.(current := (t.current - {p})[dest.value := newContent], origins := Moved(t.origins, p, dest.value))
  }

  function TrackChange(t: Tracked, c: AppliedChange): Tracked {
    match c
    case Added(p, content, overwritten) => TrackAdd(t, p, content, overwritten)
    case Deleted(p, content) => TrackDelete(t, p, content)
    case Updated(p, dest, content, overwrittenMove, newContent) => TrackUpdate(t, p, dest, content, overwrittenMove, newContent)
  }

  function OriginOf(origins: map<Path, Path>, p: Path): Path {
    if p in origins then origins[p] else p
  }

  /** A file moved on keeps its first origin; one moved back home has none. */
  function Moved(origins: map<Path, Path>, p: Path, dest: Path): map<Path, Path> {
    var origin, rest := OriginOf(origins, p), origins - {p} - {dest};
    if dest != origin then rest[dest := origin] else rest
  }

  function TrackAll(t: Tracked, changes: seq<AppliedChange>): Tracked
    decreases |changes|
  {
    if changes == [] then t else TrackAll(TrackChange(t, changes[0]), changes[1..])
  }

  function TextAt(files: Files, p: Path): Option<string> {
    if p in files && files[p].TextFile? then Some(files[p].text) else None
  }

  function Lookup(m: map<Path, string>, p: Path): Option<string> {
    if p in m then Some(m[p]) else None
  }

  /** For a seen path the tracker knows both texts, absence included; any other path is unchanged. */
  predicate AccurateAt(start: Files, t: Tracked, now: Files, p: Path) {
    if Seen(t, p) then Holds(start, p, Lookup(t.baseline, p)) && Holds(now, p, Lookup(t.current, p))
    else SameAt(start, now, p)
  }

  ghost predicate Accurate(start: Files, t: Tracked, now: Files) {
    forall p :: AccurateAt(start, t, now, p)
  }

  lemma TrackMoveAt(start: Files, t: Tracked, now: Files, c: AppliedChange, p: Path)
    requires c.Updated? && c.movePath.Some? && Faithful(now, c) && !OntoItself(c)
    requires AccurateAt(start, t, now, p) && AccurateAt(start, t, now, c.path) && AccurateAt(start, t, now, c.movePath.value)
    ensures AccurateAt(start, TrackChange(t, c), ReplayOne(now, c), p)
  {
    hide Moved;
  }

  lemma TrackInPlaceAt(start: Files, t: Tracked, now: Files, c: AppliedChange, p: Path)
    requires !(c.Updated? && c.movePath.Some?) && Faithful(now, c)
    requires AccurateAt(start, t, now, p) && AccurateAt(start, t, now, c.path)
    ensures AccurateAt(start, TrackChange(t, c), ReplayOne(now, c), p)
  {
    hide Moved;
  }

  /** A truthful change keeps the tracker accurate exactly when it does not move a file onto itself:
      such a move deletes the file, while the tracker shows it with its new text. */
  lemma TrackChangeAccurateIff(start: Files, t: Tracked, now: Files, c: AppliedChange)
    requires Accurate(start, t, now) && Faithful(now, c)
    ensures Accurate(start, TrackChange(t, c), ReplayOne(now, c)) <==> !OntoItself(c)
  {
    if OntoItself(c) {
      assert !AccurateAt(start, TrackChange(t, c), ReplayOne(now, c), c.path);
    } else {
      hide AccurateAt, TrackChange, ReplayOne, Faithful;
      forall p ensures AccurateAt(start, TrackChange(t, c), ReplayOne(now, c), p) {
        assert AccurateAt(start, t, now, p) && AccurateAt(start, t, now, c.path);
        if c.Updated? && c.movePath.Some? {
          TrackMoveAt(start, t, now, c, p);
        } else {
          TrackInPlaceAt(start, t, now, c, p);
        }
      }
    }
  }

  lemma {:induction false} TrackAllAccurate(start: Files, t: Tracked, now: Files, changes: seq<AppliedChange>)
    requires Accurate(start, t, now) && AllFaithful(now, changes) && NoneOntoItself(changes)
    ensures Accurate(start, TrackAll(t, changes), Replay(now, changes))
    decreases |changes|
  {
    hide Accurate, TrackChange, ReplayOne, Faithful, OntoItself;
    if changes != [] {
      assert !OntoItself(changes[0]);
      TrackChangeAccurateIff(start, t, now, changes[0]);
      TrackAllAccurate(start, TrackChange(t, changes[0]), ReplayOne(now, changes[0]), changes[1..]);
    }
  }

  // ---------------------------------------------------------------- where files came from

  /** The path a file came from, read off the changes from the last one back. */
  function CameFrom(changes: seq<AppliedChange>, p: Path): Path {
    if changes == [] then p
    else
      var before, c := changes[..|changes| - 1], changes[|changes| - 1];
      if c.Updated? && c.movePath == Some(p) then CameFrom(before, c.path)
      else if c.path == p && !(c.Updated? && c.movePath.None?) then p
      else CameFrom(before, p)
  }

  lemma {:induction false} TrackOneMore(t: Tracked, changes: seq<AppliedChange>, c: AppliedChange)
    ensures TrackAll(t, changes + [c]) == TrackChange(TrackAll(t, changes), c)
    decreases |changes|
  {
    hide TrackChange;
    if changes == [] {
      assert ([] + [c])[1..] == [];
    } else {
      assert (changes + [c])[1..] == changes[1..] + [c];
      TrackOneMore(TrackChange(t, changes[0]), changes[1..], c);
    }
  }

  lemma OriginStep(t: Tracked, c: AppliedChange, p: Path)
    ensures OriginOf(TrackChange(t, c).origins, p)
         == if c.Updated? && c.movePath == Some(p) then OriginOf(t.origins, c.path)
            else if c.path == p && !(c.Updated? && c.movePath.None?) then p
            else OriginOf(t.origins, p)
  {
  }

  /** The recorded origins follow the moves of the turn back to where each file came from. */
  lemma {:induction false} OriginsFollowMoves(changes: seq<AppliedChange>, p: Path)
    ensures OriginOf(TrackAll(Untracked, changes).origins, p) == CameFrom(changes, p)
    decreases |changes|
  {
    if changes != [] {
      var before, c := changes[..|changes| - 1], changes[|changes| - 1];
      assert changes == before + [c];
      TrackOneMore(Untracked, before, c);
      OriginsFollowMoves(before, p);
      OriginsFollowMoves(before, c.path);
      OriginStep(TrackAll(Untracked, before), c, p);
      hide TrackAll, TrackChange, OriginOf;
    }
  }

  // ---------------------------------------------------------------- what the diff lists

  /** A file that was there, is gone, and came up again under a path that is new. */
  predicate Candidate(t: Tracked, origin: Path, dest: Path) {
    && dest in t.origins && t.origins[dest] == origin && dest != origin
    && origin !in t.current && dest in t.current && origin in t.baseline && dest !in t.baseline
  }

  /** One destination for each origin that has any. */
  ghost predicate Pairing(t: Tracked, pairs: map<Path, Path>) {
    && (forall o :: o in pairs ==> Candidate(t, o, pairs[o]))
    && (forall o, d :: Candidate(t, o, d) ==> o in pairs)
  }

  /** The text of one path at the start against the text of the same path, or of its new one, now. */
  datatype Entry = Entry(left: Path, right: Path)

  function EntryOf(pairs: map<Path, Path>, p: Path): Entry {
    Entry(p, if p in pairs then pairs[p] else p)
  }

  predicate Differs(t: Tracked, e: Entry) { Lookup(t.baseline, e.left) != Lookup(t.current, e.right) }

  /** An entry for each path seen that is not the new path of a pair, unless its texts are equal. */
  predicate Listed(t: Tracked, pairs: map<Path, Path>, e: Entry) {
    Seen(t, e.left) && e.left !in pairs.Values && e == EntryOf(pairs, e.left) && Differs(t, e)
  }

  /** Every entry is true: it carries the text its left path had at the start of the turn and the text
      its right path has now, and the two differ. In an entry for a pair the left path is gone and the
      right one is new. */
  lemma ListedIsTrue(start: Files, t: Tracked, now: Files, pairs: map<Path, Path>, e: Entry)
    requires Accurate(start, t, now) && Pairing(t, pairs) && Listed(t, pairs, e)
    ensures Holds(start, e.left, Lookup(t.baseline, e.left)) && Holds(now, e.right, Lookup(t.current, e.right))
    ensures TextAt(start, e.left) != TextAt(now, e.right)
    ensures e.left != e.right ==> e.left in start && e.left !in now && e.right !in start && e.right in now
  {
    assert AccurateAt(start, t, now, e.left) && AccurateAt(start, t, now, e.right);
  }

  ghost predicate Mentioned(t: Tracked, pairs: map<Path, Path>, p: Path) {
    exists e :: Listed(t, pairs, e) && (p == e.left || p == e.right)
  }

  /** An end of a pair whose text did not change on the way. */
  ghost predicate PurelyRenamed(t: Tracked, pairs: map<Path, Path>, p: Path) {
    exists o :: o in pairs && (p == o || p == pairs[o]) && !Differs(t, EntryOf(pairs, o))
  }

  lemma MentionedIfListed(t: Tracked, pairs: map<Path, Path>, p: Path, left: Path)
    requires Pairing(t, pairs) && Seen(t, left) && left !in pairs.Values && Differs(t, EntryOf(pairs, left))
    requires p == left || p == EntryOf(pairs, left).right
    ensures Mentioned(t, pairs, p)
  {
    assert Listed(t, pairs, EntryOf(pairs, left));
  }

  /** A path that is an end of a pair. */
  lemma PairMentioned(t: Tracked, pairs: map<Path, Path>, p: Path, o: Path)
    requires Pairing(t, pairs) && o in pairs && (p == o || p == pairs[o])
    ensures Mentioned(t, pairs, p) <==> Differs(t, EntryOf(pairs, o))
    ensures PurelyRenamed(t, pairs, p) <==> !Differs(t, EntryOf(pairs, o))
  {
    assert Candidate(t, o, pairs[o]);
    forall x | x in pairs ensures pairs[x] != o { assert Candidate(t, x, pairs[x]); }
    assert o !in pairs.Values;
    forall x | x in pairs && (p == x || p == pairs[x]) ensures x == o {
      assert Candidate(t, x, pairs[x]);
    }
    if Differs(t, EntryOf(pairs, o)) {
      MentionedIfListed(t, pairs, p, o);
    } else {
      forall e | Listed(t, pairs, e) ensures p != e.left && p != e.right {
        assert pairs[o] in pairs.Values;
      }
    }
  }

  /** A path that belongs to no pair. */
  lemma LoneMentioned(t: Tracked, pairs: map<Path, Path>, p: Path)
    requires Pairing(t, pairs) && p !in pairs && p !in pairs.Values
    ensures Mentioned(t, pairs, p) <==> Lookup(t.baseline, p) != Lookup(t.current, p)
    ensures !PurelyRenamed(t, pairs, p)
  {
    if Lookup(t.baseline, p) != Lookup(t.current, p) {
      MentionedIfListed(t, pairs, p, p);
    } else {
      forall e | Listed(t, pairs, e) ensures p != e.left && p != e.right {
        assert e.left in pairs ==> e.right in pairs.Values;
      }
    }
    assert forall o :: o in pairs ==> pairs[o] in pairs.Values;
  }

  /** The diff mentions a path exactly when what it holds changed over the turn and it is not an end of
      a rename that left the text alone. */
  lemma MentionedIff(start: Files, t: Tracked, now: Files, pairs: map<Path, Path>, p: Path)
    requires Accurate(start, t, now) && Pairing(t, pairs)
    ensures Mentioned(t, pairs, p) <==> !SameAt(start, now, p) && !PurelyRenamed(t, pairs, p)
  {
    assert AccurateAt(start, t, now, p);
    if p in pairs {
      assert Candidate(t, p, pairs[p]);
      PairMentioned(t, pairs, p, p);
    } else if p in pairs.Values {
      var o :| o in pairs && pairs[o] == p;
      assert Candidate(t, o, p);
      PairMentioned(t, pairs, p, o);
    } else {
      LoneMentioned(t, pairs, p);
    }
    hide Mentioned, PurelyRenamed, Pairing;
  }

  /** A file moved and otherwise left alone: two paths changed, and the diff shows nothing. */
  lemma PureRenameShowsNothing(start: Files, p: Path, dest: Path, text: string, pairs: map<Path, Path>)
    requires p != dest && Holds(start, p, Some(text)) && dest !in start
    requires Pairing(TrackChange(Untracked, Updated(p, Some(dest), text, None, text)), pairs)
    ensures var c := Updated(p, Some(dest), text, None, text);
            var t, now := TrackChange(Untracked, c), ReplayOne(start, c);
            && Accurate(start, t, now)
            && !SameAt(start, now, p) && !SameAt(start, now, dest)
            && forall e :: !Listed(t, pairs, e)
  {
    var c := Updated(p, Some(dest), text, None, text);
    var t, now := TrackChange(Untracked, c), ReplayOne(start, c);
    assert Accurate(start, Untracked, start);
    TrackChangeAccurateIff(start, Untracked, start, c);
    assert t == Tracked(map[p := text], map[dest := text], map[dest := p]);
    assert Candidate(t, p, dest);
    forall e ensures !Listed(t, pairs, e) {
      assert pairs[p] == dest && dest in pairs.Values;
    }
  }

  class TurnDiffTracker {
    var valid: bool
    var baselineByPath: map<Path, string>
    var currentByPath: map<Path, string>
    var originByCurrentPath: map<Path, Path>

    constructor ()
      ensures valid && Value() == Untracked
    {
      valid, baselineByPath, currentByPath, originByCurrentPath := true, map[], map[], map[];
    }

    function Value(): Tracked
      reads this
    {
      Tracked(baselineByPath, currentByPath, originByCurrentPath)
    }

    method ApplyChange(c: AppliedChange)
      modifies this`baselineByPath, this`currentByPath, this`originByCurrentPath
      ensures Value() == TrackChange(old(Value()), c)
    {
      hide TrackAdd, TrackDelete, TrackUpdate;
      match c {
        case Added(p, content, overwritten) => ApplyAdd(p, content, overwritten);
        case Deleted(p, content) => ApplyDelete(p, content);
        case Updated(p, dest, content, overwrittenMove, newContent) =>
          ApplyUpdate(p, dest, content, overwrittenMove, newContent);
      }
    }

    method ApplyAdd(p: Path, content: string, overwritten: Option<string>)
      modifies this`baselineByPath, this`currentByPath, this`originByCurrentPath
      ensures Value() == TrackAdd(old(Value()), p, content, overwritten)
    {
      originByCurrentPath := originByCurrentPath - {p};
      KeepBaseline(p, overwritten);
      currentByPath := currentByPath[p := content];
    }

    method ApplyDelete(p: Path, content: string)
      modifies this`baselineByPath, this`currentByPath, this`originByCurrentPath
      ensures Value() == TrackDelete(old(Value()), p, content)
    {
      var tracked := p in currentByPath;
      currentByPath := currentByPath - {p};
      if !tracked && p !in baselineByPath {
        baselineByPath := baselineByPath[p := content];
      }
      originByCurrentPath := originByCurrentPath - {p};
    }

    method ApplyUpdate(p: Path, dest: Option<Path>, content: string, overwrittenMove: Option<string>, newContent: string)
      modifies this`baselineByPath, this`currentByPath, this`originByCurrentPath
      ensures Value() == TrackUpdate(old(Value()), p, dest, content, overwrittenMove, newContent)
    {
      hide NoteBaseline, Moved;
      KeepBaseline(p, Some(content));
      if dest.None? {
        currentByPath := currentByPath[p := newContent];
        return;
      }
      KeepBaseline(dest.value, overwrittenMove);
      currentByPath := currentByPath - {p};
      currentByPath := currentByPath[dest.value := newContent];
      MoveOrigin(p, dest.value);
    }

    /** The text of a path not seen before, if it had one, is its text at the start of the turn. */
    method KeepBaseline(p: Path, text: Option<string>)
      modifies this`baselineByPath
      ensures Value() == NoteBaseline(old(Value()), p, text)
    {
      if p !in currentByPath && p !in baselineByPath && text.Some? {
        baselineByPath := baselineByPath[p := text.value];
      }
    }

    method MoveOrigin(p: Path, dest: Path)
      modifies this`originByCurrentPath
      ensures originByCurrentPath == Moved(old(originByCurrentPath), p, dest)
    {
      var origin := if p in originByCurrentPath then originByCurrentPath[p] else p;
      originByCurrentPath := originByCurrentPath - {p};
      originByCurrentPath := originByCurrentPath - {dest};
      if dest != origin {
        originByCurrentPath := originByCurrentPath[dest := origin];
      }
    }

    /** `rename_pairs`: of several destinations with one origin, the last one met stays. */
    method RenamePairs() returns (pairs: map<Path, Path>)
      ensures Pairing(Value(), pairs)
    {
      pairs := map[];
      var left := originByCurrentPath.Keys;
      while left != {}
        invariant left <= originByCurrentPath.Keys
        invariant forall o :: o in pairs ==> Candidate(Value(), o, pairs[o])
        invariant forall o, d :: Candidate(Value(), o, d) && d !in left ==> o in pairs
        decreases |left|
      {
        var dest :| dest in left;
        var origin := originByCurrentPath[dest];
        if !(dest == origin || origin in currentByPath || dest !in currentByPath
             || origin !in baselineByPath || dest in baselineByPath) {
          pairs := pairs[origin := dest];
        }
        left := left - {dest};
      }
    }

    /** `refresh_unified_diff`: the paths are taken one by one, each pair under its left path. */
    method RefreshUnifiedDiff() returns (entries: seq<Entry>, pairs: map<Path, Path>)
      ensures Pairing(Value(), pairs)
      ensures forall e :: e in entries <==> Listed(Value(), pairs, e)
      ensures forall i, j :: 0 <= i < j < |entries| ==> entries[i] != entries[j]
    {
      pairs := RenamePairs();
      hide Pairing;
      entries := [];
      var left := baselineByPath.Keys + currentByPath.Keys;
      while left != {}
        invariant left <= baselineByPath.Keys + currentByPath.Keys
        invariant forall e :: e in entries <==> Listed(Value(), pairs, e) && e.left !in left
        invariant forall i, j :: 0 <= i < j < |entries| ==> entries[i] != entries[j]
        decreases |left|
      {
        var path :| path in left;
        left := left - {path};
        var e := EntryOf(pairs, path);
        assert e !in entries;
        if path !in pairs.Values && Differs(Value(), e) {
          entries := entries + [e];
        }
      }
    }

    /** An inexact delta withdraws the diff for good; otherwise the entries are those of the new diff. */
    method TrackDelta(delta: AppliedPatchDelta) returns (entries: seq<Entry>, pairs: map<Path, Path>)
      modifies this
      ensures valid == (old(valid) && delta.exact)
      ensures !valid ==> entries == []
      ensures valid ==> && Value() == TrackAll(old(Value()), delta.changes)
                        && Pairing(Value(), pairs) && forall e :: e in entries <==> Listed(Value(), pairs, e)
    {
      hide Pairing, Listed;
      entries, pairs := [], map[];
      if !valid {
        return;
      }
      if !delta.exact {
        valid := false;
        return;
      }
      ghost var start := Value();
      var i := 0;
      assert delta.changes[0..] == delta.changes;
      while i < |delta.changes|
        invariant 0 <= i <= |delta.changes| && valid
        invariant TrackAll(start, delta.changes) == TrackAll(Value(), delta.changes[i..])
      {
        assert delta.changes[i..][0] == delta.changes[i] && delta.changes[i..][1..] == delta.changes[i + 1..];
        ApplyChange(delta.changes[i]);
        i := i + 1;
      }
      entries, pairs := RefreshUnifiedDiff();
    }
  }

  // ---------------------------------------------------------------- over a turn

  /** Applying a patch and tracking its delta: whatever calls fail, the tracker is accurate about
      the whole turn so far or has withdrawn its diff, as long as no hunk moves a file onto itself. The
      diff then mentions exactly the paths that changed since the turn began, pure renames apart. A run
      that succeeds on text files without a failing call never withdraws it. */
  method ApplyAndTrack(fs: FileSystem, tracker: TurnDiffTracker, hunks: seq<Hunk>, resolve: Resolver, ghost start: Files)
    returns (entries: seq<Entry>, pairs: map<Path, Path>, ok: bool)
    requires tracker.valid ==> Accurate(start, tracker.Value(), fs.Contents())
    requires forall i :: 0 <= i < |hunks| ==> !SelfMove(hunks[i], resolve)
    modifies fs, tracker
    ensures tracker.valid ==> old(tracker.valid) && Accurate(start, tracker.Value(), fs.Contents())
    ensures AllPlain(old(fs.nodes), AllTouched(hunks, resolve)) && fs.faults == old(fs.faults) && ok ==>
              TextOrNone(old(fs.Contents()), AllTouched(hunks, resolve)) ==> tracker.valid == old(tracker.valid)
    ensures tracker.valid ==>
              forall p :: (exists e :: e in entries && (p == e.left || p == e.right))
                     <==> !SameAt(start, fs.Contents(), p) && !PurelyRenamed(tracker.Value(), pairs, p)
  {
    hide *;
    ghost var before, tracked := fs.Contents(), tracker.Value();
    var delta := new AppliedPatchDelta();
    var r, phantom := ApplyHunksToFiles(fs, delta, hunks, resolve);
    ok := r.Ok?;
    entries, pairs := tracker.TrackDelta(delta);
    if tracker.valid {
      RecordedIsFaithful(before, delta.changes, fs.Contents());
      TrackAllAccurate(start, tracked, before, delta.changes);
      EntriesMention(start, tracker.Value(), fs.Contents(), pairs, entries);
    }
  }

  lemma EntriesMention(start: Files, t: Tracked, now: Files, pairs: map<Path, Path>, entries: seq<Entry>)
    requires Accurate(start, t, now) && Pairing(t, pairs) && forall e :: e in entries <==> Listed(t, pairs, e)
    ensures forall p :: (exists e :: e in entries && (p == e.left || p == e.right))
                   <==> !SameAt(start, now, p) && !PurelyRenamed(t, pairs, p)
  {
    hide Accurate, Pairing, Listed, PurelyRenamed, SameAt;
    forall p ensures (exists e :: e in entries && (p == e.left || p == e.right))
                <==> !SameAt(start, now, p) && !PurelyRenamed(t, pairs, p) {
      MentionedIff(start, t, now, pairs, p);
      if e :| e in entries && (p == e.left || p == e.right) {
        assert Listed(t, pairs, e);
      }
    }
  }

  lemma RecordedIsFaithful(before: Files, changes: seq<AppliedChange>, after: Files)
    requires Recorded(before, changes, after)
    ensures AllFaithful(before, changes) && Replay(before, changes) == after
  {
  }
}
