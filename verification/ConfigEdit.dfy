/** Edits of a configuration tree in place. */
module ConfigEdit {
  import opened Basics
  import opened ConfigTree
  import opened ConfigMerge

  datatype MergeStrategy = Replace | Upsert

  /** The edits that go through an overlay merge instead of a plain write: table onto table with `Upsert`,
      and a change between the short and the long form of one feature's settings. */
  predicate MergesOverlay(root: Toml, segments: Path, value: Toml, strategy: MergeStrategy) {
    || (&& |segments| >= 2 && segments[0] == "features" && segments[1] == "multi_agent_v2"
        && var feature := ValueAt(root, segments[..2]);
           && feature.Some?
           && (if feature.value.Boolean? then |segments| > 2 || value.Table?
               else feature.value.Table? && |segments| == 2 && value.Boolean?))
    || (&& strategy.Upsert? && value.Table?
        && ValueAt(root, segments).Some? && ValueAt(root, segments).value.Table?)
  }

  /** The written path reads the value, and a diverging one reads as before, or as nothing when a
      non-table on the shared stretch had to give way. */
  ghost predicate WrittenPlainly(before: Toml, path: Path, value: Toml, after: Toml) {
    && ValueAt(after, path) == Some(value)
    && forall q :: Diverge(path, q) ==> ValueAt(after, q) == if Blocked(before, path, q) then None else ValueAt(before, q)
  }

  /** The write would change the feature between its two forms. */
  predicate ChangesForm(root: Toml, path: Path, value: Toml) {
    && FEATURE <= path
    && match ValueAt(root, FEATURE)
       case Some(Boolean(_)) => path != FEATURE || value.Table?
       case Some(Table(_)) => path == FEATURE && value.Boolean?
       case _ => false
  }

  lemma SetIsPlain(root: Toml, path: Path, value: Toml)
    requires Set(root, path, value).Ok?
    ensures WrittenPlainly(root, path, value, Set(root, path, value).value)
  {
    SetThenGet(root, path, value);
    forall q | Diverge(path, q)
      ensures ValueAt(Set(root, path, value).value, q) == if Blocked(root, path, q) then None else ValueAt(root, q)
    {
      SetThenGetElsewhere(root, path, value, q);
    }
  }

  /** Which writes are plain. */
  lemma PlainIff(root: Toml, path: Path, value: Toml, strategy: MergeStrategy)
    ensures MergesOverlay(root, path, value, strategy)
       <==> || ChangesForm(root, path, value)
            || (strategy == Upsert && value.Table? && ValueAt(root, path).Some? && ValueAt(root, path).value.Table?)
  {
    if |path| >= 2 {
      assert path[..2] == [path[0], path[1]];
      assert FEATURE <= path <==> path[..2] == FEATURE;
    }
    hide ValueAt;
  }

  class ConfigStore {
    var root: Toml

    constructor (root: Toml)
      ensures this.root == root
    {
      this.root := root;
    }

    /** `clear_path`: follow tables, then remove the last segment. */
    method ClearPath(segments: Path) returns (r: Result<bool, MergeError>)
      modifies this
      ensures segments == [] ==> r == Err(EmptyKeyPath) && root == old(root)
      ensures segments != [] ==> Clear(old(root), segments) == (root, r.Ok? && r.value) && r.Ok?
    {
      if segments == [] {
        return Err(EmptyKeyPath);
      }
      var i := 0;
      var current := root;
      assert segments[..0] == [] && segments[0..] == segments;
      while i < |segments| - 1
        invariant 0 <= i < |segments|
        invariant root == old(root) && TablePath(root, segments[..i]) && Node(root, segments[..i]) == current
        invariant Clear(root, segments).1 == Clear(current, segments[i..]).1
        invariant Clear(root, segments).0 == Put(root, segments[..i], Clear(current, segments[i..]).0)
      {
        assert segments[i..][0] == segments[i] && segments[i..][1..] == segments[i + 1..];
        if !current.Table? || segments[i] !in current.entries {
          PutNodeBack(root, segments[..i]);
          return Ok(false);
        }
        NodeExtends(root, segments[..i], segments[i], Clear(current.entries[segments[i]], segments[i + 1..]).0);
        assert segments[..i] + [segments[i]] == segments[..i + 1];
        current := current.entries[segments[i]];
        i := i + 1;
      }
      assert segments[i..] == [segments[i]];
      if !current.Table? || segments[i] !in current.entries {
        PutNodeBack(root, segments[..i]);
        return Ok(false);
      }
      root := Put(root, segments[..i], Table(current.entries - {segments[i]}));
      return Ok(true);
    }

    /** `apply_merge`. A plain write changes the tree while walking down, an error still leaves it as it
        was, and the result says whether the tree changed. An overlay merge always reports a change. */
    method ApplyMerge(segments: Path, value: Option<Toml>, strategy: MergeStrategy, names: Renamings) returns (r: Result<bool, MergeError>)
      modifies this
      ensures value.Some? && segments != [] && MergesOverlay(old(root), segments, value.value, strategy) ==>
                root == Merged(old(root), SparseOverlay(segments, value.value), [], names) && r == Ok(true)
      ensures value.Some? && (segments == [] || !MergesOverlay(old(root), segments, value.value, strategy)) ==>
                match Set(old(root), segments, value.value)
                case Ok(after) => root == after && r == Ok(root != old(root))
                case Err(e) => root == old(root) && r == Err(e)
      // What it means: a replacement, or an upsert of anything but a table onto a table, is a plain write.
      ensures value.Some? && r.Ok? && !ChangesForm(old(root), segments, value.value)
              && (strategy == Replace || !value.value.Table? || !ValueAt(old(root), segments).Some? || !ValueAt(old(root), segments).value.Table?)
              ==> WrittenPlainly(old(root), segments, value.value, root)
      // Switching the feature in its long form keeps its settings.
      ensures value.Some? && segments == FEATURE && value.value.Boolean? && TablePath(old(root), FEATURE) && Node(old(root), FEATURE).Table?
              ==> TablePath(root, FEATURE) && Node(root, FEATURE) == Table(Node(old(root), FEATURE).entries["enabled" := value.value])
      // Settings on its short form keep the switch.
      ensures value.Some? && segments == FEATURE && value.value.Table? && TablePath(old(root), FEATURE) && Node(old(root), FEATURE).Boolean?
              ==> TablePath(root, FEATURE) && Node(root, FEATURE) == Table(map["enabled" := Node(old(root), FEATURE)] + value.value.entries)
      ensures value.Some? && FEATURE < segments && TablePath(old(root), FEATURE) && Node(old(root), FEATURE).Boolean?
              ==> && TablePath(root, FEATURE)
                  && Node(root, FEATURE) == Table(map["enabled" := Node(old(root), FEATURE)] + map[segments[2] := SparseOverlay(segments[3..], value.value)])
      ensures value.None? && segments != [] ==> Clear(old(root), segments) == (root, root != old(root)) && r == Ok(root != old(root))
      ensures value.None? && segments == [] ==> r == Err(EmptyKeyPath) && root == old(root)
    {
      hide MergesOverlay, Merged;
      if value.None? {
        r := ClearPath(segments);
        if segments != [] {
          ClearRemoves(old(root), segments);
        }
        return;
      }
      if segments == [] {
        return Err(EmptyKeyPath);
      }
      PlainIff(root, segments, value.value, strategy);
      FeatureThroughTables(root);
      if MergesOverlay(root, segments, value.value, strategy) {
        FeatureWritten(root, segments, value.value, names);
        root := MergeAtPath(root, SparseOverlay(segments, value.value), [], names);
        return Ok(true);
      }
      ghost var start := root;
      var parents, last := segments[..|segments| - 1], segments[|segments| - 1];
      SetIsWalkAndPut(start, segments, value.value);
      if Set(start, segments, value.value).Ok? { SetIsPlain(start, segments, value.value); }
      hide WrittenPlainly;
      var current := WalkParents(parents);
      if !current.Table? {
        return Err(NonTableParent);
      }
      var changed := last !in current.entries || current.entries[last] != value.value;
      ghost var walked := root;
      root := Put(root, parents, Table(current.entries[last := value.value]));
      ChangedMeans(start, segments, value.value);
      return Ok(changed);
    }

    /** The walk, one segment at a time, replacing and inserting as it goes. */
    method WalkParents(parents: Path) returns (current: Toml)
      modifies this
      ensures root == Walked(old(root), parents)
      ensures TablePath(root, parents) && current == Node(root, parents)
    {
      hide Put, Node, TablePath;
      ghost var start := root;
      current := root;
      AtRoot(root, Walked(root, parents));
      assert parents[..0] == [] && parents[0..] == parents;
      for i := 0 to |parents|
        invariant TablePath(root, parents[..i]) && Node(root, parents[..i]) == current
        invariant Walked(start, parents) == Put(root, parents[..i], Walked(current, parents[i..]))
      {
        var segment := parents[i];
        assert parents[i..] == [segment] + parents[i + 1..] && parents[..i] + [segment] == parents[..i + 1];
        WalkStep(root, parents[..i], segment, parents[i + 1..]);
        var entries := if current.Table? then current.entries else map[];
        if segment !in entries {
          entries := entries[segment := EmptyTable];
        }
        assert entries == Opened(current, segment);
        root := Put(root, parents[..i], Table(entries));
        current := entries[segment];
      }
      assert parents[..|parents|] == parents;
      PutNodeBack(root, parents);
    }
  }
  /** What a merge leaves of the feature whose form it changes. */
  lemma FeatureWritten(root: Toml, path: Path, value: Toml, names: Renamings)
    ensures var after := Merged(root, SparseOverlay(path, value), [], names);
            && (path == FEATURE && value.Boolean? && TablePath(root, FEATURE) && Node(root, FEATURE).Table? ==>
                  TablePath(after, FEATURE) && Node(after, FEATURE) == Table(Node(root, FEATURE).entries["enabled" := value]))
            && (path == FEATURE && value.Table? && TablePath(root, FEATURE) && Node(root, FEATURE).Boolean? ==>
                  TablePath(after, FEATURE) && Node(after, FEATURE) == Table(map["enabled" := Node(root, FEATURE)] + value.entries))
            && (FEATURE < path && TablePath(root, FEATURE) && Node(root, FEATURE).Boolean? ==>
                  && TablePath(after, FEATURE)
                  && Node(after, FEATURE) == Table(map["enabled" := Node(root, FEATURE)] + map[path[2] := SparseOverlay(path[3..], value)]))
  {
    hide Merged, SparseOverlay;
    if TablePath(root, FEATURE) {
      if path == FEATURE && value.Boolean? && Node(root, FEATURE).Table? {
        SwitchKeepsSettings(root, value.flag, names);
      }
      if Node(root, FEATURE).Boolean? {
        if path == FEATURE && value.Table? {
          SettingsKeepSwitch(root, Node(root, FEATURE).flag, value.entries, names);
        }
        if FEATURE < path {
          var rest := path[2..];
          assert path == FEATURE + rest && rest[0] == path[2] && rest[1..] == path[3..];
          SettingKeepsSwitch(root, Node(root, FEATURE).flag, rest, value, names);
        }
      }
    }
  }

  /** A path that reads something and does not lead through tables alone leads through an array. */
  lemma {:induction false} ArrayOnTheWay(root: Toml, p: Path)
    requires ValueAt(root, p).Some? && !TablePath(root, p)
    ensures exists k :: 0 <= k < |p| && TablePath(root, p[..k]) && Node(root, p[..k]).Array?
    decreases |p|
  {
    if root.Array? {
      assert TablePath(root, p[..0]);
    } else {
      ArrayOnTheWay(root.entries[p[0]], p[1..]);
      var k :| 0 <= k < |p| - 1 && TablePath(root.entries[p[0]], p[1..][..k]) && Node(root.entries[p[0]], p[1..][..k]).Array?;
      assert p[..k + 1][1..] == p[1..][..k];
      assert TablePath(root, p[..k + 1]) && Node(root, p[..k + 1]).Array?;
    }
  }

  lemma {:induction false} TablesOnTheWay(root: Toml, p: Path, k: nat)
    requires TablePath(root, p) && k < |p|
    ensures TablePath(root, p[..k]) && Node(root, p[..k]).Table?
    decreases |p|
  {
    if k > 0 {
      TablesOnTheWay(root.entries[p[0]], p[1..], k - 1);
      assert p[..k][1..] == p[1..][..k - 1];
    }
  }

  /** An upsert of a table onto a table merges the two if and only if a chain of tables leads there.
      Otherwise the old table is lost: an array on the way gives way to a table. */
  lemma {:induction false} UpsertMergesOnlyThroughTables(root: Toml, p: Path, value: Toml, names: Renamings)
    requires value.Table? && Free(root, [], p) && ValueAt(root, p).Some? && ValueAt(root, p).value.Table?
    ensures MergesOverlay(root, p, value, Upsert)
    ensures var m := Merged(root, SparseOverlay(p, value), [], names);
            && TablePath(m, p)
            && if TablePath(root, p) then Node(m, p) == Merged(ValueAt(root, p).value, value, p, names)
               else Node(m, p) == value
                    && exists k :: 0 <= k < |p| && TablePath(root, p[..k]) && Node(root, p[..k]).Array?
                                   && TablePath(m, p[..k]) && Node(m, p[..k]).Table?
  {
    hide Merged;
    var m := Merged(root, SparseOverlay(p, value), [], names);
    OverlayReaches(root, p, value, [], names);
    assert [] + p == p;
    if TablePath(root, p) {
      TablePathReads(root, p);
    } else {
      ArrayOnTheWay(root, p);
      var k :| 0 <= k < |p| && TablePath(root, p[..k]) && Node(root, p[..k]).Array?;
      TablesOnTheWay(m, p, k);
    }
  }

  /** An upsert of a table that is found through an array index replaces the whole array by a table. */
  lemma UpsertReplacesArray(items: seq<Toml>, key: string, index: string, value: Toml, names: Renamings)
    requires value.Table? && Child(Array(items), index).Some? && Child(Array(items), index).value.Table?
    ensures var root := Table(map[key := Array(items)]);
            && MergesOverlay(root, [key, index], value, Upsert)
            && Merged(root, SparseOverlay([key, index], value), [], names) == Table(map[key := Table(map[index := value])])
  {
    var root := Table(map[key := Array(items)]);
    var inner := Table(map[index := value]);
    var overlay := SparseOverlay([key, index], value);
    assert [key, index][1..] == [index] && [index][1..] == [];
    assert SparseOverlay([index], value) == inner by { assert SparseOverlay([], value) == value; }
    assert overlay == Table(map[key := inner]);
    assert ValueAt(root, [key, index]) == ValueAt(Array(items), [index]);
    assert ValueAt(Array(items), [index]) == Child(Array(items), index) by {
      var found := Child(Array(items), index).value;
      assert ValueAt(found, []) == Some(found);
    }
    assert [] + [key] == [key];
    MergedTables(Array(items), inner, [key], names, index);
    hide Merged, Child;
    var m := Merged(root, overlay, [], names);
    MergedTables(root, overlay, [], names, key);
    forall k ensures k in m.entries <==> k == key {
      MergedTables(root, overlay, [], names, k);
    }
    assert m.entries == map[key := inner];
  }
}
