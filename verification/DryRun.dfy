/** Verifying a patch without applying it, and what that promises about applying it. */
module DryRun {
  import opened Basics
  import opened PatchSyntax
  import opened Replacements
  import opened FileUpdate
  import opened PatchedFiles
  import opened FileSystem
  import opened PatchApplier

  /** A proposed change; the unified diff shown to the user is not modelled. */
  datatype FileChange =
    | Add(content: string)
    | Delete(content: string)
    | Update(movePath: Option<Path>, newContent: string)

  type Changes = map<Path, FileChange>

  datatype VerifyError = PathUnresolved | Unreadable(path: Path) | NotApplicable(error: ReplacementError)

  /** One hunk against the files as they are. */
  function VerifyHunk(files: Files, hunk: Hunk, resolve: Resolver): Result<FileChange, VerifyError>
    requires resolve(hunk.path).Some?
  {
    var p := resolve(hunk.path).value;
    match hunk
    case AddFile(_, contents) => Ok(Add(contents))
    case DeleteFile(_) =>
      if p in files && files[p].TextFile? then Ok(Delete(files[p].text)) else Err(Unreadable(p))
    case UpdateFile(_, movePath, chunks) =>
      if p !in files || !files[p].TextFile? then Err(Unreadable(p))
      else
        var content := NewContents(files[p].text, chunks);
        if content.Err? then Err(NotApplicable(content.error))
        else if movePath.None? then Ok(Update(None, content.value))
        else if resolve(movePath.value).None? then Err(PathUnresolved)
        else Ok(Update(resolve(movePath.value), content.value))
  }

  function Verified(files: Files, hunks: seq<Hunk>, resolve: Resolver, changes: Changes): Result<Changes, VerifyError>
    decreases |hunks|
  {
    if hunks == [] then Ok(changes)
    else if resolve(hunks[0].path).None? then Err(PathUnresolved)
    else
      var change := VerifyHunk(files, hunks[0], resolve);
      if change.Err? then Err(change.error)
      else Verified(files, hunks[1..], resolve, changes[resolve(hunks[0].path).value := change.value])
  }

  /** `try_verify_apply_patch_args`: reads only, and fills the map hunk by hunk. */
  method TryVerifyApplyPatchArgs(fs: FileSystem, hunks: seq<Hunk>, resolve: Resolver) returns (r: Result<Changes, VerifyError>)
    modifies fs`faults
    ensures old(fs.faults) <= fs.faults
    ensures AllPlain(fs.nodes, AllTouched(hunks, resolve)) && fs.faults == old(fs.faults) ==> r == Verified(fs.Contents(), hunks, resolve, map[])
  {
    hide NewContents, FilesOf;
    ghost var plain := AllPlain(fs.nodes, AllTouched(hunks, resolve));
    var changes: Changes := map[];
    assert hunks[0..] == hunks;
    for i := 0 to |hunks|
      invariant old(fs.faults) <= fs.faults
      invariant plain && fs.faults == old(fs.faults) ==>
                  Verified(fs.Contents(), hunks, resolve, map[]) == Verified(fs.Contents(), hunks[i..], resolve, changes)
    {
      var hunk := hunks[i];
      assert hunks[i..][0] == hunk && hunks[i..][1..] == hunks[i + 1..];
      var path := resolve(hunk.path);
      if path.None? {
        return Err(PathUnresolved);
      }
      TouchedByOne(hunks, resolve, i);
      assert plain ==> Plain(fs.nodes, path.value);
      match hunk {
        case AddFile(_, contents) =>
          changes := changes[path.value := Add(contents)];
        case DeleteFile(_) =>
          var text := ReadFileToUpdate(fs, path.value);
          if text.None? {
            return Err(Unreadable(path.value));
          }
          changes := changes[path.value := Delete(text.value)];
        case UpdateFile(_, movePath, chunks) =>
          var text := ReadFileToUpdate(fs, path.value);
          if text.None? {
            return Err(Unreadable(path.value));
          }
          var content := DeriveNewContents(text.value, chunks);
          if content.Err? {
            return Err(NotApplicable(content.error));
          }
          if movePath.Some? && resolve(movePath.value).None? {
            return Err(PathUnresolved);
          }
          var dest := if movePath.None? then None else resolve(movePath.value);
          changes := changes[path.value := Update(dest, content.value)];
      }
    }
    r := Ok(changes);
  }

  // ---------------------------------------------------------------- what the map predicts

  predicate At(files: Files, p: Path, text: string) { p in files && files[p] == TextFile(text) }

  /** The change at `p` is what happened between the two states. */
  predicate Happened(before: Files, p: Path, change: FileChange, after: Files) {
    match change
    case Add(content) => At(after, p, content)
    case Delete(content) => At(before, p, content) && p !in after
    case Update(dest, content) =>
      if dest.None? then At(after, p, content) else At(after, dest.value, content) && p !in after
  }

  /** The paths a set of changes reaches. */
  ghost predicate Reached(changes: Changes, q: Path) {
    q in changes || exists p :: p in changes && changes[p].Update? && changes[p].movePath == Some(q)
  }

  /** Every listed change happened and no other file changed. */
  ghost predicate Predicts(before: Files, changes: Changes, after: Files) {
    && (forall p :: p in changes ==> Happened(before, p, changes[p], after))
    && (forall q :: !Reached(changes, q) ==> SameAt(before, after, q))
  }

  /** All source and destination paths of the patch are different. */
  ghost predicate Distinct(hunks: seq<Hunk>, resolve: Resolver) {
    hunks == [] ||
    (&& !SelfMove(hunks[0], resolve)
     && Touched(hunks[0], resolve) !! AllTouched(hunks[1..], resolve)
     && Distinct(hunks[1..], resolve))
  }

  ghost predicate Avoids(changes: Changes, paths: set<Path>) {
    forall q :: q in paths ==> !Reached(changes, q)
  }

  /** One verified hunk: applying it to the current files does what the new entry predicts. */
  lemma HunkPredicted(before: Files, changes: Changes, now: Files, hunk: Hunk, resolve: Resolver)
    requires Predicts(before, changes, now) && Avoids(changes, Touched(hunk, resolve)) && !SelfMove(hunk, resolve)
    requires resolve(hunk.path).Some? && VerifyHunk(before, hunk, resolve).Ok?
    ensures var changes' := changes[resolve(hunk.path).value := VerifyHunk(before, hunk, resolve).value];
            && HunkEffect(now, hunk, resolve).Some?
            && Predicts(before, changes', HunkEffect(now, hunk, resolve).value)
            && forall q :: Reached(changes', q) ==> Reached(changes, q) || q in Touched(hunk, resolve)
  {
    hide NewContents;
    var p := resolve(hunk.path).value;
    var change := VerifyHunk(before, hunk, resolve).value;
    var changes' := changes[p := change];
    assert p in Touched(hunk, resolve) && SameAt(before, now, p);
    var after := HunkEffect(now, hunk, resolve).value;
    forall q | Reached(changes', q) ensures Reached(changes, q) || q in Touched(hunk, resolve) {
      if q !in changes' {
        var x :| x in changes' && changes'[x].Update? && changes'[x].movePath == Some(q);
        assert x != p ==> x in changes;
      }
    }
    forall x | x in changes' ensures Happened(before, x, changes'[x], after) {
      if x != p {
        assert Happened(before, x, changes[x], now);
        assert Reached(changes, x);
        if changes[x].Update? && changes[x].movePath.Some? {
          assert Reached(changes, changes[x].movePath.value);
        }
      }
    }
    forall q | !Reached(changes', q) ensures SameAt(before, after, q) {
      ReachedGrows(changes, p, change, q);
      assert change.Update? && change.movePath == Some(q) ==> p in changes';
      assert SameAt(before, now, q);
    }
  }

  lemma ReachedGrows(changes: Changes, p: Path, change: FileChange, q: Path)
    requires !Reached(changes, p)
    ensures Reached(changes, q) ==> Reached(changes[p := change], q)
  {
    if Reached(changes, q) && q !in changes {
      var x :| x in changes && changes[x].Update? && changes[x].movePath == Some(q);
      assert x != p;
      assert x in changes[p := change] && changes[p := change][x] == changes[x];
    }
  }

  lemma {:induction false} VerifiedPredicts(before: Files, changes: Changes, now: Files, hunks: seq<Hunk>, resolve: Resolver)
    requires Predicts(before, changes, now) && Avoids(changes, AllTouched(hunks, resolve)) && Distinct(hunks, resolve)
    requires Verified(before, hunks, resolve, changes).Ok?
    ensures var (after, ok) := PatchEffect(now, hunks, resolve);
            ok && Predicts(before, Verified(before, hunks, resolve, changes).value, after)
    decreases |hunks|
  {
    hide Predicts, HunkEffect, VerifyHunk, Touched, Reached;
    if hunks != [] {
      var hunk := hunks[0];
      assert Touched(hunk, resolve) <= AllTouched(hunks, resolve);
      HunkPredicted(before, changes, now, hunk, resolve);
      var changes' := changes[resolve(hunk.path).value := VerifyHunk(before, hunk, resolve).value];
      VerifiedPredicts(before, changes', HunkEffect(now, hunk, resolve).value, hunks[1..], resolve);
    }
  }

  /** A verified patch over distinct paths applies, fault-free, to exactly what was predicted. */
  lemma {:induction false} DryRunAgrees(files: Files, hunks: seq<Hunk>, resolve: Resolver)
    requires Distinct(hunks, resolve) && Verified(files, hunks, resolve, map[]).Ok?
    ensures var (after, ok) := PatchEffect(files, hunks, resolve);
            ok && Predicts(files, Verified(files, hunks, resolve, map[]).value, after)
  {
    NothingPredicted(files);
    VerifiedPredicts(files, map[], files, hunks, resolve);
  }

  lemma NothingPredicted(files: Files)
    ensures Predicts(files, map[], files) && forall q :: !Reached(map[], q)
  {
  }

  // ---------------------------------------------------------------- when it refuses

  /** Deleting something that is there but cannot be read as text. */
  predicate DeletesUnreadable(files: Files, hunk: Hunk, resolve: Resolver) {
    hunk.DeleteFile? && resolve(hunk.path).Some? && resolve(hunk.path).value in files && !files[resolve(hunk.path).value].TextFile?
  }

  lemma {:induction false} RefusedIsRejected(before: Files, changes: Changes, now: Files, hunks: seq<Hunk>, resolve: Resolver)
    requires Predicts(before, changes, now) && Avoids(changes, AllTouched(hunks, resolve)) && Distinct(hunks, resolve)
    requires Verified(before, hunks, resolve, changes).Err?
    requires forall i :: 0 <= i < |hunks| ==> !DeletesUnreadable(before, hunks[i], resolve)
    ensures !PatchEffect(now, hunks, resolve).1
    decreases |hunks|
  {
    hide NewContents, Reached;
    var hunk := hunks[0];
    if resolve(hunk.path).Some? {
      var p := resolve(hunk.path).value;
      assert p in Touched(hunk, resolve) && p in AllTouched(hunks, resolve);
      assert SameAt(before, now, p);
      if VerifyHunk(before, hunk, resolve).Err? {
        assert !DeletesUnreadable(before, hunks[0], resolve);
        assert HunkEffect(now, hunk, resolve).None?;
      } else {
        hide Predicts, HunkEffect, VerifyHunk, DeletesUnreadable;
        HunkPredicted(before, changes, now, hunk, resolve);
        var changes' := changes[p := VerifyHunk(before, hunk, resolve).value];
        RefusedIsRejected(before, changes', HunkEffect(now, hunk, resolve).value, hunks[1..], resolve);
      }
    }
  }

  /** A patch that does delete such a file is always refused by verification, and yet the run can
      accept it. */
  lemma {:induction false} UnreadableDeleteIsRefused(files: Files, hunks: seq<Hunk>, resolve: Resolver, changes: Changes, i: nat)
    requires i < |hunks| && DeletesUnreadable(files, hunks[i], resolve)
    ensures Verified(files, hunks, resolve, changes).Err?
    ensures |hunks| == 1 ==> PatchEffect(files, hunks, resolve) == (files - {resolve(hunks[0].path).value}, true)
    decreases |hunks|
  {
    hide NewContents;
    if i > 0 && resolve(hunks[0].path).Some? {
      var change := VerifyHunk(files, hunks[0], resolve);
      if change.Ok? {
        UnreadableDeleteIsRefused(files, hunks[1..], resolve, changes[resolve(hunks[0].path).value := change.value], i - 1);
      }
    }
  }

  /** Over distinct paths, verification accepts a patch exactly when a fault-free run does and it deletes
      no file that is not text. */
  lemma {:induction false} AcceptsTheSamePatches(files: Files, hunks: seq<Hunk>, resolve: Resolver)
    requires Distinct(hunks, resolve)
    ensures Verified(files, hunks, resolve, map[]).Ok?
       <==> PatchEffect(files, hunks, resolve).1 && forall i :: 0 <= i < |hunks| ==> !DeletesUnreadable(files, hunks[i], resolve)
  {
    hide Verified, PatchEffect, DeletesUnreadable, Distinct;
    NothingPredicted(files);
    if i :| 0 <= i < |hunks| && DeletesUnreadable(files, hunks[i], resolve) {
      UnreadableDeleteIsRefused(files, hunks, resolve, map[], i);
    } else if Verified(files, hunks, resolve, map[]).Ok? {
      VerifiedPredicts(files, map[], files, hunks, resolve);
    } else {
      RefusedIsRejected(files, map[], files, hunks, resolve);
    }
  }

  /** Verify, then apply: when both go through without a failing call, the files end up exactly as
      the verified changes said. */
  method VerifyThenApply(fs: FileSystem, delta: AppliedPatchDelta, hunks: seq<Hunk>, resolve: Resolver)
    returns (changes: Result<Changes, VerifyError>, applied: bool)
    requires delta.changes == [] && delta.exact
    modifies fs, delta
    ensures changes.Err? ==> !applied && fs.nodes == old(fs.nodes)
    ensures hunks != [] && Distinct(hunks, resolve) && AllPlain(old(fs.nodes), AllTouched(hunks, resolve)) && fs.faults == old(fs.faults) ==>
              changes.Ok? ==> applied && Predicts(old(fs.Contents()), changes.value, fs.Contents())
  {
    hide Predicts, Distinct, FilesOf, AllPlain;
    changes := TryVerifyApplyPatchArgs(fs, hunks, resolve);
    if changes.Err? {
      return changes, false;
    }
    ghost var before := fs.Contents();
    ghost var plain := AllPlain(fs.nodes, AllTouched(hunks, resolve));
    ghost var verified := fs.faults == old(fs.faults);
    var affected, _ := ApplyHunksToFiles(fs, delta, hunks, resolve);
    applied := affected.Ok?;
    if plain && verified && Distinct(hunks, resolve) {
      DryRunAgrees(before, hunks, resolve);
    }
  }
}
