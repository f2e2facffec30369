/** Merging an overlay into a configuration tree, the overlay taking precedence. */
module ConfigMerge {
  import opened Basics
  import opened ConfigTree

  /** How the keys of a table are normalised: for each key it will have, the one it had. Where several
      become the same, this says which wins. */
  type Renaming = map<string, Toml> -> map<string, string>

  /** Network domains are normalised as hosts, environment filters to lower case. */
  datatype Renamings = Renamings(hosts: Renaming, lower: Renaming)

  function Renamed(entries: map<string, Toml>, names: map<string, string>): map<string, Toml> {
    map k | k in names && names[k] in entries :: entries[names[k]]
  }

  predicate IsFeature(path: Path) { path == ["features", "multi_agent_v2"] }

  predicate IsFilters(path: Path) { path == ["shell_environment_policy", "filters"] }

  predicate IsDomains(path: Path) {
    |path| == 4 && path[0] == "permissions" && path[2] == "network" && path[3] == "domains"
  }

  function RenamingAt(path: Path, names: Renamings): Renaming {
    if IsDomains(path) then names.hosts else names.lower
  }

  function Normalised(entries: map<string, Toml>, path: Path, names: Renamings): map<string, Toml> {
    if IsDomains(path) || IsFilters(path) then Renamed(entries, RenamingAt(path, names)(entries)) else entries
  }

  lemma NormalisedFrom(entries: map<string, Toml>, path: Path, names: Renamings, k: string)
    requires k in Normalised(entries, path, names)
    ensures exists j :: j in entries && entries[j] == Normalised(entries, path, names)[k]
  {
  }

  lemma NotNormalised(entries: map<string, Toml>, path: Path, names: Renamings)
    requires !IsFilters(path) && !IsDomains(path)
    ensures Normalised(entries, path, names) == entries
  {
  }

  /** One feature has a short form, a boolean, and a long one, a table with the boolean in it. */
  function LongForm(base: Toml, overlay: Toml, path: Path): Toml {
    if IsFeature(path) && base.Boolean? && overlay.Table? then Table(map["enabled" := base]) else base
  }

  function Merged(base: Toml, overlay: Toml, path: Path, names: Renamings): Toml
    decreases overlay
  {
    if IsFeature(path) && base.Table? && overlay.Boolean? then Table(base.entries["enabled" := overlay])
    else
      var base := LongForm(base, overlay, path);
      if overlay.Table? && base.Table? then
        var b, o := Normalised(base.entries, path, names), Normalised(overlay.entries, path, names);
        Table(map k | k in b.Keys + o.Keys ::
                if k in o
                then (NormalisedFrom(overlay.entries, path, names, k); if k in b then Merged(b[k], o[k], path + [k], names) else o[k])
                else b[k])
      else overlay
  }

  /** The entries once the keys outside `left` have been taken. */
  ghost predicate MergedBut(entries: map<string, Toml>, b: map<string, Toml>, o: map<string, Toml>, m: map<string, Toml>, left: set<string>) {
    && (forall k :: k in entries <==> k in b || (k in o && k !in left))
    && (forall k :: k in entries && k in o && k !in left ==> k in m && entries[k] == m[k])
    && (forall k :: k in entries && (k !in o || k in left) ==> k in b && entries[k] == b[k])
  }

  /** `merge_toml_values_at_path`: the overlay's keys are taken one by one, in whatever order. */
  method MergeAtPath(base: Toml, overlay: Toml, path: Path, names: Renamings) returns (r: Toml)
    ensures r == Merged(base, overlay, path, names)
    decreases overlay
  {
    hide Normalised, IsFeature, LongForm, MergedBut;
    if IsFeature(path) && base.Table? && overlay.Boolean? {
      return Table(base.entries["enabled" := overlay]);
    }
    var start := LongForm(base, overlay, path);
    if !overlay.Table? || !start.Table? {
      return overlay;
    }
    var b, o := Normalised(start.entries, path, names), Normalised(overlay.entries, path, names);
    ghost var m := Merged(base, overlay, path, names);
    assert m.Table? by { MergedKey(base, overlay, path, names, ""); }
    hide Merged;
    var entries, left := b, o.Keys;
    NothingMerged(b, o, m.entries);
    while left != {}
      invariant left <= o.Keys && MergedBut(entries, b, o, m.entries, left)
      decreases |left|
    {
      var key :| key in left;
      MergedKey(base, overlay, path, names, key);
      OneMoreMerged(entries, b, o, m.entries, left, key);
      var merged := o[key];
      if key in entries {
        NormalisedFrom(overlay.entries, path, names, key);
        merged := MergeAtPath(entries[key], o[key], path + [key], names);
      }
      entries := entries[key := merged];
      left := left - {key};
    }
    forall k ensures k in m.entries <==> k in b || k in o
             ensures k !in o && k in b ==> m.entries[k] == b[k] {
      MergedKey(base, overlay, path, names, k);
    }
    AllMerged(entries, b, o, m.entries);
    r := Table(entries);
  }

  lemma NothingMerged(b: map<string, Toml>, o: map<string, Toml>, m: map<string, Toml>)
    ensures MergedBut(b, b, o, m, o.Keys)
  {
  }

  lemma OneMoreMerged(entries: map<string, Toml>, b: map<string, Toml>, o: map<string, Toml>, m: map<string, Toml>, left: set<string>, key: string)
    requires MergedBut(entries, b, o, m, left) && key in left && key in o && key in m
    ensures (key in entries <==> key in b) && (key in b ==> entries[key] == b[key])
    ensures MergedBut(entries[key := m[key]], b, o, m, left - {key})
  {
  }

  lemma AllMerged(entries: map<string, Toml>, b: map<string, Toml>, o: map<string, Toml>, m: map<string, Toml>)
    requires MergedBut(entries, b, o, m, {})
    requires forall k :: k in m <==> k in b || k in o
    requires forall k :: k !in o && k in b ==> m[k] == b[k]
    ensures entries == m
  {
  }

  // ---------------------------------------------------------------- laws of merging

  /** A table merged into this node is merged key by key, or replaces it. */
  predicate Ordinary(node: Toml, path: Path) {
    && (node.Table? ==> !IsFilters(path) && !IsDomains(path))
    && (IsFeature(path) ==> !node.Boolean?)
  }

  /** So it is with every node of the tree that the path goes through. */
  predicate Free(base: Toml, path: Path, p: Path)
    decreases |p|
  {
    p != [] ==>
      && Ordinary(base, path)
      && (base.Table? && p[0] in base.entries ==> Free(base.entries[p[0]], path + [p[0]], p[1..]))
  }

  /** What becomes of one key. */
  lemma MergedKey(base: Toml, overlay: Toml, path: Path, names: Renamings, k: string)
    requires overlay.Table? && LongForm(base, overlay, path).Table?
    ensures var b := Normalised(LongForm(base, overlay, path).entries, path, names);
            var o := Normalised(overlay.entries, path, names);
            var m := Merged(base, overlay, path, names);
            && m.Table? && (k in m.entries <==> k in b || k in o)
            && (k in o && k in b ==> m.entries[k] == Merged(b[k], o[k], path + [k], names))
            && (k in o && k !in b ==> m.entries[k] == o[k])
            && (k !in o && k in b ==> m.entries[k] == b[k])
  {
    hide Normalised, LongForm, IsFeature;
  }

  /** In an ordinary place. */
  lemma MergedTables(base: Toml, overlay: Toml, path: Path, names: Renamings, k: string)
    requires overlay.Table? && Ordinary(base, path)
    ensures !base.Table? ==> Merged(base, overlay, path, names) == overlay
    ensures base.Table? ==>
              var b, o, m := base.entries, overlay.entries, Merged(base, overlay, path, names);
              && m.Table? && (k in m.entries <==> k in b || k in o)
              && (k in o && k in b ==> m.entries[k] == Merged(b[k], o[k], path + [k], names))
              && (k in o && k !in b ==> m.entries[k] == o[k])
              && (k !in o && k in b ==> m.entries[k] == b[k])
  {
    if base.Table? {
      MergedKey(base, overlay, path, names, k);
      NotNormalised(base.entries, path, names);
      NotNormalised(overlay.entries, path, names);
      hide Merged, Normalised;
    } else {
      hide Normalised;
    }
  }

  lemma {:induction false} SparseNode(p: Path, value: Toml)
    ensures TablePath(SparseOverlay(p, value), p) && Node(SparseOverlay(p, value), p) == value
    decreases |p|
  {
    if p != [] { SparseNode(p[1..], value); }
  }

  lemma {:induction false} SparseReadsNothing(p: Path, value: Toml, q: Path)
    requires Diverge(p, q)
    ensures ValueAt(SparseOverlay(p, value), q) == None
    decreases |p|
  {
    if p[0] == q[0] { SparseReadsNothing(p[1..], value, q[1..]); }
  }

  /** Merging the overlay of one path: a chain of tables leads to what was there merged with the value, or to
      the value alone when no chain of tables led there before. */
  lemma {:induction false} OverlayReaches(base: Toml, p: Path, value: Toml, path: Path, names: Renamings)
    requires Free(base, path, p)
    ensures var m := Merged(base, SparseOverlay(p, value), path, names);
            && TablePath(m, p)
            && Node(m, p) == if TablePath(base, p) then Merged(Node(base, p), value, path + p, names) else value
    decreases |p|
  {
    hide Merged, Ordinary;
    if p == [] {
      assert path + p == path;
    } else {
      SparseNode(p[1..], value);
      MergedTables(base, SparseOverlay(p, value), path, names, p[0]);
      if base.Table? && p[0] in base.entries {
        OverlayReaches(base.entries[p[0]], p[1..], value, path + [p[0]], names);
        assert path + [p[0]] + p[1..] == path + p;
      }
    }
  }

  /** And a diverging path reads as before, or as nothing when a non-table on the shared stretch gave way. */
  lemma {:induction false} OverlayKeepsElsewhere(base: Toml, p: Path, value: Toml, q: Path, path: Path, names: Renamings)
    requires Diverge(p, q) && Free(base, path, p)
    ensures ValueAt(Merged(base, SparseOverlay(p, value), path, names), q) == if Blocked(base, p, q) then None else ValueAt(base, q)
    decreases |p|
  {
    hide Merged, Ordinary;
    MergedTables(base, SparseOverlay(p, value), path, names, q[0]);
    if p[0] == q[0] {
      SparseReadsNothing(p[1..], value, q[1..]);
      if base.Table? && p[0] in base.entries {
        OverlayKeepsElsewhere(base.entries[p[0]], p[1..], value, q[1..], path + [p[0]], names);
      }
    }
  }

  /** The overlay takes precedence: each of its values that is no table is read back. */
  lemma {:induction false} MergeThenGet(base: Toml, overlay: Toml, p: Path, path: Path, names: Renamings)
    requires TablePath(overlay, p) && !Node(overlay, p).Table? && Free(base, path, p)
    requires IsFeature(path + p) && TablePath(base, p) && Node(base, p).Table? ==> !Node(overlay, p).Boolean?
    ensures ValueAt(Merged(base, overlay, path, names), p) == Some(Node(overlay, p))
    decreases |p|
  {
    hide Merged, Ordinary;
    if p == [] {
      assert path + p == path;
      LeafReplaces(base, overlay, path, names);
    } else {
      MergedTables(base, overlay, path, names, p[0]);
      TablePathReads(overlay, p);
      if base.Table? && p[0] in base.entries {
        assert path + [p[0]] + p[1..] == path + p;
        MergeThenGet(base.entries[p[0]], overlay.entries[p[0]], p[1..], path + [p[0]], names);
      }
    }
  }

  lemma LeafReplaces(base: Toml, leaf: Toml, path: Path, names: Renamings)
    requires !leaf.Table? && (IsFeature(path) && base.Table? ==> !leaf.Boolean?)
    ensures Merged(base, leaf, path, names) == leaf
  {
  }

  lemma {:induction false} TablePathReads(root: Toml, p: Path)
    requires TablePath(root, p)
    ensures ValueAt(root, p) == Some(Node(root, p))
    decreases |p|
  {
    if p != [] { TablePathReads(root.entries[p[0]], p[1..]); }
  }

  /** The path goes through tables of both trees up to a key the overlay does not have. */
  predicate Untouched(base: Toml, overlay: Toml, q: Path)
    decreases |q|
  {
    && q != [] && base.Table? && overlay.Table?
    && (q[0] !in overlay.entries || (q[0] in base.entries && Untouched(base.entries[q[0]], overlay.entries[q[0]], q[1..])))
  }

  /** What the overlay does not mention stays. */
  lemma {:induction false} MergeKeepsRest(base: Toml, overlay: Toml, q: Path, path: Path, names: Renamings)
    requires Untouched(base, overlay, q) && Free(base, path, q)
    ensures ValueAt(Merged(base, overlay, path, names), q) == ValueAt(base, q)
    decreases |q|
  {
    hide Merged, Ordinary;
    MergedTables(base, overlay, path, names, q[0]);
    if q[0] in overlay.entries {
      MergeKeepsRest(base.entries[q[0]], overlay.entries[q[0]], q[1..], path + [q[0]], names);
    }
  }

  // ---------------------------------------------------------------- tables with normalised keys

  /** The renaming takes each key to its normal form, and keeps one of those with the same. */
  ghost predicate RenamesBy(g: Renaming, normal: string -> string) {
    forall entries ::
      && (forall k :: k in g(entries) ==> g(entries)[k] in entries && normal(g(entries)[k]) == k)
      && (forall j :: j in entries ==> normal(j) in g(entries))
  }

  lemma RenamedBy(g: Renaming, normal: string -> string, entries: map<string, Toml>)
    requires RenamesBy(g, normal)
    ensures forall j :: j in entries ==> normal(j) in Renamed(entries, g(entries))
    ensures forall k :: k in Renamed(entries, g(entries)) ==>
              exists j :: j in entries && normal(j) == k && Renamed(entries, g(entries))[k] == entries[j]
  {
    var names := g(entries);
    forall k | k in Renamed(entries, names)
      ensures exists j :: j in entries && normal(j) == k && Renamed(entries, names)[k] == entries[j]
    {
      assert names[k] in entries && normal(names[k]) == k;
    }
  }

  /** In the filters and the domains keys are compared by their normal forms: the result has exactly the
      normal forms of both tables' keys, and under each of the overlay's a value of the overlay, merged
      with the one that was there however its key was written. */
  lemma MergeNormalises(base: Toml, overlay: Toml, path: Path, names: Renamings, normal: string -> string)
    requires base.Table? && overlay.Table? && (IsFilters(path) || IsDomains(path))
    requires RenamesBy(RenamingAt(path, names), normal)
    ensures var b, o, m := base.entries, overlay.entries, Merged(base, overlay, path, names);
            && m.Table?
            && (forall j :: j in b || j in o ==> normal(j) in m.entries)
            && (forall k :: k in m.entries ==> NormalEntry(b, o, m.entries, k, path, names, normal))
  {
    var g := RenamingAt(path, names);
    var m := Merged(base, overlay, path, names);
    RenamedBy(g, normal, base.entries);
    RenamedBy(g, normal, overlay.entries);
    MergedKey(base, overlay, path, names, "");
    assert LongForm(base, overlay, path) == base;
    hide Merged, Renamed, RenamesBy, LongForm, RenamingAt;
    forall j | j in base.entries || j in overlay.entries ensures normal(j) in m.entries {
      MergedKey(base, overlay, path, names, normal(j));
    }
    forall k | k in m.entries ensures NormalEntry(base.entries, overlay.entries, m.entries, k, path, names, normal) {
      MergedKey(base, overlay, path, names, k);
    }
  }

  /** Where the value under one normal form comes from. */
  ghost predicate NormalEntry(b: map<string, Toml>, o: map<string, Toml>, m: map<string, Toml>, k: string, path: Path, names: Renamings, normal: string -> string)
    requires k in m
  {
    || (exists j :: j in b && normal(j) == k && m[k] == b[j] && forall i :: i in o ==> normal(i) != k)
    || (exists i :: i in o && normal(i) == k && m[k] == o[i] && forall j :: j in b ==> normal(j) != k)
    || (exists i, j :: i in o && j in b && normal(i) == k && normal(j) == k && m[k] == Merged(b[j], o[i], path + [k], names))
  }

  // ---------------------------------------------------------------- one path, through any table

  datatype Normals = Normals(hosts: string -> string, lower: string -> string)

  ghost predicate Lawful(names: Renamings, normals: Normals) {
    RenamesBy(names.hosts, normals.hosts) && RenamesBy(names.lower, normals.lower)
  }

  function NormalKey(path: Path, k: string, normals: Normals): string {
    if IsDomains(path) then normals.hosts(k) else if IsFilters(path) then normals.lower(k) else k
  }

  /** The entries that a table is merged with at this node: its long form, keys normalised; none if the
      node gives way to the table. */
  function TableAt(node: Toml, path: Path, names: Renamings): Option<map<string, Toml>> {
    var long := LongForm(node, EmptyTable, path);
    if long.Table? then Some(Normalised(long.entries, path, names)) else None
  }

  /** Where a value written under `p` ends up: keys are normalised as long as there is something to
      merge with. */
  function Landing(base: Toml, path: Path, p: Path, names: Renamings, normals: Normals): Path
    decreases |p|
  {
    if p == [] || TableAt(base, path, names).None? then p
    else
      var b, k := TableAt(base, path, names).value, NormalKey(path, p[0], normals);
      [k] + if k in b then Landing(b[k], path + [k], p[1..], names, normals) else p[1..]
  }

  /** What it is merged with there. */
  function Found(base: Toml, path: Path, p: Path, names: Renamings, normals: Normals): Option<Toml>
    decreases |p|
  {
    if p == [] then Some(base)
    else if TableAt(base, path, names).None? then None
    else
      var b, k := TableAt(base, path, names).value, NormalKey(path, p[0], normals);
      if k in b then Found(b[k], path + [k], p[1..], names, normals) else None
  }

  /** What `q` reads in the tree once the tables on the way of `p` are in the form they are merged in. */
  function Beside(base: Toml, path: Path, p: Path, q: Path, names: Renamings, normals: Normals): Option<Toml>
    decreases |p|
  {
    if p == [] || q == [] || TableAt(base, path, names).None? then None
    else
      var b, k := TableAt(base, path, names).value, NormalKey(path, p[0], normals);
      if q[0] !in b then None
      else if q[0] != k then ValueAt(b[q[0]], q[1..])
      else Beside(b[k], path + [k], p[1..], q[1..], names, normals)
  }

  lemma SingleNormalised(path: Path, k: string, node: Toml, names: Renamings, normals: Normals)
    requires Lawful(names, normals)
    ensures Normalised(map[k := node], path, names) == map[NormalKey(path, k, normals) := node]
  {
    if IsDomains(path) || IsFilters(path) {
      RenamedBy(RenamingAt(path, names), if IsDomains(path) then normals.hosts else normals.lower, map[k := node]);
    }
  }

  /** One key of an overlay merged into a node. */
  lemma OneKeyMerged(base: Toml, key: string, node: Toml, path: Path, names: Renamings, normals: Normals, q: string)
    requires Lawful(names, normals)
    ensures var m, k := Merged(base, Table(map[key := node]), path, names), NormalKey(path, key, normals);
            match TableAt(base, path, names)
            case None => m == Table(map[key := node])
            case Some(b) =>
              && m.Table? && (q in m.entries <==> q in b || q == k)
              && (q in m.entries ==>
                    m.entries[q] == if q != k then b[q] else if k in b then Merged(b[k], node, path + [k], names) else node)
  {
    var overlay := Table(map[key := node]);
    SingleNormalised(path, key, node, names, normals);
    assert LongForm(base, overlay, path) == LongForm(base, EmptyTable, path);
    hide Lawful, NormalKey, Normalised, LongForm;
    if TableAt(base, path, names).Some? {
      MergedKey(base, overlay, path, names, q);
    }
  }

  /** A value merged in under any path whatever, through any table: a chain of tables leads to it, or to
      its merge with what was found there. */
  lemma {:induction false} OverlayLands(base: Toml, p: Path, value: Toml, path: Path, names: Renamings, normals: Normals)
    requires Lawful(names, normals)
    ensures var m := Merged(base, SparseOverlay(p, value), path, names);
            var at, found := Landing(base, path, p, names, normals), Found(base, path, p, names, normals);
            TablePath(m, at) && Node(m, at) == if found.Some? then Merged(found.value, value, path + at, names) else value
    decreases |p|
  {
    hide Merged, Lawful, TableAt, NormalKey, TablePath, Node, SparseOverlay, Landing, Found;
    LandingStep(base, path, p, names, normals);
    var m := Merged(base, SparseOverlay(p, value), path, names);
    if p == [] {
      assert path + p == path;
      EmptyPath(m, value);
    } else {
      var k, rest := NormalKey(path, p[0], normals), SparseOverlay(p[1..], value);
      SparseNode(p, value);
      SparseNode(p[1..], value);
      SparseCons(p, value);
      OneKeyMerged(base, p[0], rest, path, names, normals, k);
      if TableAt(base, path, names).Some? {
        var b := TableAt(base, path, names).value;
        if k in b {
          OverlayLands(b[k], p[1..], value, path + [k], names, normals);
          var at := Landing(b[k], path + [k], p[1..], names, normals);
          NodeCons(m, k, at);
          assert path + [k] + at == path + ([k] + at);
        } else {
          NodeCons(m, k, p[1..]);
        }
      }
    }
  }

  lemma LandingStep(base: Toml, path: Path, p: Path, names: Renamings, normals: Normals)
    ensures var at, found := Landing(base, path, p, names, normals), Found(base, path, p, names, normals);
            if p == [] then at == [] && found == Some(base)
            else match TableAt(base, path, names)
              case None => at == p && found == None
              case Some(b) =>
                var k := NormalKey(path, p[0], normals);
                if k in b then
                  && at == [k] + Landing(b[k], path + [k], p[1..], names, normals)
                  && found == Found(b[k], path + [k], p[1..], names, normals)
                else at == [k] + p[1..] && found == None
  {
    hide TableAt, NormalKey;
  }

  lemma EmptyPath(root: Toml, value: Toml)
    ensures TablePath(root, []) && Node(root, []) == root && SparseOverlay([], value) == value
  {
  }

  lemma SparseCons(p: Path, value: Toml)
    requires p != []
    ensures SparseOverlay(p, value) == Table(map[p[0] := SparseOverlay(p[1..], value)])
  {
  }

  lemma NodeCons(root: Toml, k: string, rest: Path)
    requires root.Table? && k in root.entries && TablePath(root.entries[k], rest)
    ensures TablePath(root, [k] + rest) && Node(root, [k] + rest) == Node(root.entries[k], rest)
  {
    assert ([k] + rest)[1..] == rest;
  }

  /** And every path that parts from where it ended up reads as it did beside it. */
  lemma {:induction false} OverlayKeepsBeside(base: Toml, p: Path, value: Toml, q: Path, path: Path, names: Renamings, normals: Normals)
    requires Lawful(names, normals) && Diverge(Landing(base, path, p, names, normals), q)
    ensures ValueAt(Merged(base, SparseOverlay(p, value), path, names), q) == Beside(base, path, p, q, names, normals)
    decreases |p|
  {
    hide Merged, Lawful, TableAt, NormalKey, SparseOverlay;
    var k := NormalKey(path, p[0], normals);
    SparseCons(p, value);
    OneKeyMerged(base, p[0], SparseOverlay(p[1..], value), path, names, normals, q[0]);
    if TableAt(base, path, names).None? {
      SparseReadsNothing(p, value, q);
    } else if q[0] == k {
      var b := TableAt(base, path, names).value;
      if k in b {
        var rest := Landing(b[k], path + [k], p[1..], names, normals);
        assert ([k] + rest)[1..] == rest;
        OverlayKeepsBeside(b[k], p[1..], value, q[1..], path + [k], names, normals);
      } else {
        assert ([k] + p[1..])[1..] == p[1..];
        SparseReadsNothing(p[1..], value, q[1..]);
      }
    }
  }

  // ---------------------------------------------------------------- the two forms of one feature

  const FEATURE: Path := ["features", "multi_agent_v2"]

  lemma FeatureIsFree(root: Toml)
    ensures Free(root, [], FEATURE)
  {
    assert FEATURE[1..] == ["multi_agent_v2"] && [] + [FEATURE[0]] == ["features"];
    if root.Table? && FEATURE[0] in root.entries {
      var node := root.entries[FEATURE[0]];
      assert Ordinary(node, ["features"]);
      assert Free(node, ["features"], ["multi_agent_v2"]) by {
        assert ["multi_agent_v2"][1..] == [];
      }
    }
  }

  /** Switching the feature on or off in its long form keeps every other setting. */
  lemma SwitchKeepsSettings(root: Toml, on: bool, names: Renamings)
    requires TablePath(root, FEATURE) && Node(root, FEATURE).Table?
    ensures var after := Merged(root, SparseOverlay(FEATURE, Boolean(on)), [], names);
            TablePath(after, FEATURE) && Node(after, FEATURE) == Table(Node(root, FEATURE).entries["enabled" := Boolean(on)])
  {
    FeatureIsFree(root);
    OverlayReaches(root, FEATURE, Boolean(on), [], names);
    assert [] + FEATURE == FEATURE;
  }

  lemma {:induction false} SparseAppend(p: Path, q: Path, value: Toml)
    ensures SparseOverlay(p + q, value) == SparseOverlay(p, SparseOverlay(q, value))
    decreases |p|
  {
    if p == [] {
      assert p + q == q;
    } else {
      assert (p + q)[1..] == p[1..] + q;
      SparseAppend(p[1..], q, value);
    }
  }

  /** Settings written while the feature is in its short form turn it into the long one: the switch and
      these settings, which may name the switch itself. */
  lemma SettingsKeepSwitch(root: Toml, on: bool, settings: map<string, Toml>, names: Renamings)
    requires TablePath(root, FEATURE) && Node(root, FEATURE) == Boolean(on)
    ensures var after := Merged(root, SparseOverlay(FEATURE, Table(settings)), [], names);
            TablePath(after, FEATURE) && Node(after, FEATURE) == Table(map["enabled" := Boolean(on)] + settings)
  {
    FeatureIsFree(root);
    OverlayReaches(root, FEATURE, Table(settings), [], names);
    assert [] + FEATURE == FEATURE;
    LongFormMerged(on, settings, names);
  }

  /** So does one setting, at any depth. */
  lemma SettingKeepsSwitch(root: Toml, on: bool, rest: Path, value: Toml, names: Renamings)
    requires TablePath(root, FEATURE) && Node(root, FEATURE) == Boolean(on) && rest != []
    ensures var after := Merged(root, SparseOverlay(FEATURE + rest, value), [], names);
            && TablePath(after, FEATURE)
            && Node(after, FEATURE) == Table(map["enabled" := Boolean(on)] + map[rest[0] := SparseOverlay(rest[1..], value)])
  {
    SparseAppend(FEATURE, rest, value);
    SparseCons(rest, value);
    SettingsKeepSwitch(root, on, map[rest[0] := SparseOverlay(rest[1..], value)], names);
  }

  lemma LongFormMerged(on: bool, settings: map<string, Toml>, names: Renamings)
    ensures Merged(Boolean(on), Table(settings), FEATURE, names) == Table(map["enabled" := Boolean(on)] + settings)
  {
    var base, overlay := Boolean(on), Table(settings);
    var b := map["enabled" := base];
    assert LongForm(base, overlay, FEATURE) == Table(b);
    NotNormalised(b, FEATURE, names);
    NotNormalised(settings, FEATURE, names);
    hide Merged, Normalised, LongForm;
    var m := Merged(base, overlay, FEATURE, names);
    MergedKey(base, overlay, FEATURE, names, "");
    forall k ensures k in m.entries <==> k in b || k in settings
             ensures k in m.entries ==> m.entries[k] == if k in settings then settings[k] else b[k] {
      MergedKey(base, overlay, FEATURE, names, k);
      if k in settings && k in b { BooleanGivesWay(on, settings[k], FEATURE + [k], names); }
    }
    assert m.entries == b + settings;
  }

  lemma BooleanGivesWay(on: bool, overlay: Toml, path: Path, names: Renamings)
    requires !IsFeature(path)
    ensures Merged(Boolean(on), overlay, path, names) == overlay
  {
  }

  /** The feature is never found through an array: its name is no index. */
  lemma FeatureThroughTables(root: Toml)
    ensures ValueAt(root, FEATURE).Some? <==> TablePath(root, FEATURE)
    ensures TablePath(root, FEATURE) ==> ValueAt(root, FEATURE) == Some(Node(root, FEATURE))
  {
    assert FEATURE[1..] == ["multi_agent_v2"] && ["multi_agent_v2"][1..] == [];
    if TablePath(root, FEATURE) {
      TablePathReads(root, FEATURE);
    }
    NotAnIndex("multi_agent_v2");
    NotAnIndex("features");
  }
}
