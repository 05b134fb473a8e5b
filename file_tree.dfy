/**
 * The file tree shown by the file explorer: a map of paths to contents is turned into a
 * trie of path segments and then into nested tree items, where a file is its name and a
 * folder is its name followed by its children.
 */
module FileTree {
  import opened Wrappers
  import opened Strings
  import opened StringOrder
  import opened Records

  const PathSeparator: char := '/'

  /** A slot of a trie level: `null` for a file, a nested level for a directory. */
  datatype Slot = Leaf | Dir(node: Node)
  /** One level of the trie, keyed by path segment in insertion order. */
  datatype Node = Node(entries: seq<(string, Slot)>)

  /** A tree item: a file name, or a folder name with its children. */
  datatype TreeItem = File(name: string) | Folder(name: string, children: seq<TreeItem>)
  /** What converting one level yields: a list of items, or a single item for an empty level. */
  datatype Converted = Items(items: seq<TreeItem>) | Single(item: TreeItem)

  /** The segments of a path. */
  function Segments(path: string): (ps: seq<string>)
    ensures |ps| >= 1
  {
    Split(path, PathSeparator)
  }

  /** `p` names a directory that `q` lies inside. */
  predicate IsDirPrefix(p: string, q: string) {
    |p| < |q| && q[..|p|] == p && q[|p|] == PathSeparator
  }

  predicate ProperPrefix(a: seq<string>, b: seq<string>) {
    |a| < |b| && b[..|a|] == a
  }

  /** `names` with `x` added at the end, unless it is already there. */
  function WithName(names: seq<string>, x: string): seq<string> {
    if x in names then names else names + [x]
  }

  // ---------------------------------------------------------------------------
  // Building the trie

  /**
   * Adds one path to the trie: every segment but the last becomes a directory (replacing a
   * file or a missing slot by a fresh level, keeping an existing one), the last becomes a file.
   */
  function Insert(n: Node, parts: seq<string>): (r: Node)
    requires |parts| >= 1
    ensures KeysOf(r.entries) == WithName(KeysOf(n.entries), parts[0])
    decreases |parts|
  {
    var slot := if |parts| == 1 then Leaf else Dir(Insert(SubLevel(n, parts[0]), parts[1..]));
    SetKeys(n.entries, parts[0], slot);
    Node(Set(n.entries, parts[0], slot))
  }

  /** The level stored under `key` when it is a directory; a fresh empty level otherwise. */
  function SubLevel(n: Node, key: string): Node {
    var slot := Get(n.entries, key);
    if slot.Some? && slot.value.Dir? then slot.value.node else Node([])
  }

  /** The trie built from the paths, inserted in order. */
  function Build(paths: seq<string>): Node
    decreases |paths|
  {
    if paths == [] then Node([])
    else Insert(Build(paths[..|paths| - 1]), Segments(paths[|paths| - 1]))
  }

  /** What the trie holds at a sequence of segments. */
  function Lookup(n: Node, ps: seq<string>): Option<Slot>
    requires |ps| >= 1
    decreases |ps|
  {
    match Get(n.entries, ps[0])
    case None => None
    case Some(s) =>
      if |ps| == 1 then Some(s)
      else if s.Dir? then Lookup(s.node, ps[1..])
      else None
  }

  predicate LeafAt(n: Node, ps: seq<string>)
    requires |ps| >= 1
  {
    Lookup(n, ps) == Some(Leaf)
  }

  predicate DirAt(n: Node, ps: seq<string>)
    requires |ps| >= 1
  {
    Lookup(n, ps).Some? && Lookup(n, ps).value.Dir?
  }

  /** Keys are unique on every level and no directory level is empty. */
  predicate WellFormedTree(n: Node)
    decreases n
  {
    && Distinct(KeysOf(n.entries))
    && forall i :: 0 <= i < |n.entries| && n.entries[i].1.Dir? ==>
         n.entries[i].1.node.entries != [] && WellFormedTree(n.entries[i].1.node)
  }

  lemma ProperPrefixTail(a: seq<string>, b: seq<string>)
    requires |a| >= 1 && |b| >= 1 && a[0] == b[0]
    ensures a == b <==> a[1..] == b[1..]
    ensures ProperPrefix(a, b) <==> ProperPrefix(a[1..], b[1..])
  {
    if a[1..] == b[1..] {
      assert a == [a[0]] + a[1..] && b == [b[0]] + b[1..];
    }
    if |a| < |b| {
      assert b[..|a|] == [b[0]] + b[1..][..|a| - 1];
      assert a == [a[0]] + a[1..];
    }
  }

  /**
   * Inserting `ps` makes it a file, makes each of its proper prefixes a directory, removes
   * whatever lay below `ps`, and leaves every other path as it was.
   */
  lemma {:induction false} InsertLookup(n: Node, ps: seq<string>, qs: seq<string>)
    requires |ps| >= 1 && |qs| >= 1
    ensures qs == ps ==> LeafAt(Insert(n, ps), qs)
    ensures ProperPrefix(qs, ps) ==> DirAt(Insert(n, ps), qs)
    ensures ProperPrefix(ps, qs) ==> Lookup(Insert(n, ps), qs).None?
    ensures qs != ps && !ProperPrefix(qs, ps) && !ProperPrefix(ps, qs) ==>
      Lookup(Insert(n, ps), qs) == Lookup(n, qs)
    decreases |ps|
  {
    var r := Insert(n, ps);
    if qs[0] != ps[0] {
      assert Get(r.entries, qs[0]) == Get(n.entries, qs[0]);
    } else if |ps| == 1 {
      assert Get(r.entries, qs[0]) == Some(Leaf);
      if |qs| > 1 {
        assert qs[..|ps|] == ps by { assert qs[..1] == [qs[0]]; }
      }
    } else {
      var sub := SubLevel(n, ps[0]);
      assert Get(r.entries, qs[0]) == Some(Dir(Insert(sub, ps[1..])));
      if |qs| == 1 {
        assert ps[..|qs|] == qs by { assert ps[..1] == [ps[0]]; }
      } else {
        InsertLookup(sub, ps[1..], qs[1..]);
        ProperPrefixTail(qs, ps);
        ProperPrefixTail(ps, qs);
        if !(Get(n.entries, ps[0]).Some? && Get(n.entries, ps[0]).value.Dir?) {
          assert Lookup(n, qs) == None;
          assert Lookup(sub, qs[1..]) == None;
        }
      }
    }
  }

  /** Inserting keeps the trie well formed, and the trie is then non-empty. */
  lemma {:induction false} InsertWellFormed(n: Node, ps: seq<string>)
    requires |ps| >= 1 && WellFormedTree(n)
    ensures WellFormedTree(Insert(n, ps)) && Insert(n, ps).entries != []
    decreases |ps|
  {
    if |ps| == 1 {
      SetWellFormed(n, ps[0], Leaf);
    } else {
      SubLevelWellFormed(n, ps[0]);
      InsertWellFormed(SubLevel(n, ps[0]), ps[1..]);
      SetWellFormed(n, ps[0], Dir(Insert(SubLevel(n, ps[0]), ps[1..])));
    }
  }

  lemma SubLevelWellFormed(n: Node, key: string)
    requires WellFormedTree(n)
    ensures WellFormedTree(SubLevel(n, key))
  {
    var slot := Get(n.entries, key);
    if slot.Some? && slot.value.Dir? {
      var i :| 0 <= i < |n.entries| && n.entries[i] == (key, slot.value);
    }
  }

  /** Storing a file, or a well-formed non-empty directory, keeps a level well formed. */
  lemma SetWellFormed(n: Node, key: string, slot: Slot)
    requires WellFormedTree(n)
    requires slot.Dir? ==> slot.node.entries != [] && WellFormedTree(slot.node)
    ensures WellFormedTree(Node(Set(n.entries, key, slot)))
    ensures Set(n.entries, key, slot) != []
  {
    var r := Set(n.entries, key, slot);
    SetEntries(n.entries, key, slot);
    SetDistinct(n.entries, key, slot);
    forall i | 0 <= i < |r| && r[i].1.Dir?
      ensures r[i].1.node.entries != [] && WellFormedTree(r[i].1.node)
    {
      if r[i] != (key, slot) {
        var j :| 0 <= j < |n.entries| && n.entries[j] == r[i];
      }
    }
  }

  lemma {:induction false} BuildWellFormed(paths: seq<string>)
    ensures WellFormedTree(Build(paths))
    ensures paths != [] ==> Build(paths).entries != []
    decreases |paths|
  {
    if paths != [] {
      BuildWellFormed(paths[..|paths| - 1]);
      InsertWellFormed(Build(paths[..|paths| - 1]), Segments(paths[|paths| - 1]));
    }
  }

  /** The segments of `p` are a proper prefix of those of `q` exactly when `p` is a directory of `q`. */
  lemma SegmentsPrefix(p: string, q: string)
    ensures ProperPrefix(Segments(p), Segments(q)) <==> IsDirPrefix(p, q)
  {
    if ProperPrefix(Segments(p), Segments(q)) {
      SplitPrefix(p, q, PathSeparator);
    }
    if IsDirPrefix(p, q) {
      var rest := q[|p| + 1..];
      assert q == p + [PathSeparator] + rest;
      SplitAround(p, rest, PathSeparator);
    }
  }

  /** Some path of `paths` lies inside `p` taken as a directory. */
  predicate Shadowed(paths: seq<string>, p: string) {
    exists k :: 0 <= k < |paths| && IsDirPrefix(p, paths[k])
  }

  /** In sorted order a directory comes before every path inside it. */
  lemma DirBeforeContents(paths: seq<string>, a: int, b: int)
    requires StrictlySorted(paths) && 0 <= a < |paths| && 0 <= b < |paths|
    requires IsDirPrefix(paths[a], paths[b])
    ensures a < b
  {
    assert paths[b][..|paths[a]|] == paths[a];
    PrefixBelow(paths[a], paths[b]);
    if b < a {
      BelowAsymmetric(paths[a], paths[b]);
    }
  }

  /**
   * Built from sorted, distinct paths, the trie holds each path as a file unless another path
   * lies inside it, in which case it holds a directory there.
   */
  lemma {:induction false} BuildLookup(paths: seq<string>, j: int)
    requires StrictlySorted(paths) && 0 <= j < |paths|
    ensures Shadowed(paths, paths[j]) ==> DirAt(Build(paths), Segments(paths[j]))
    ensures !Shadowed(paths, paths[j]) ==> LeafAt(Build(paths), Segments(paths[j]))
    decreases |paths|, 1
  {
    var n := |paths|;
    if j == n - 1 {
      LastPathIsFile(paths);
    } else {
      var init, last := paths[..n - 1], paths[n - 1];
      var ps, qs := Segments(last), Segments(paths[j]);
      assert Build(paths) == Insert(Build(init), ps);
      InsertLookup(Build(init), ps, qs);
      SegmentsPrefix(paths[j], last);
      if qs == ps {
        SplitInjective(paths[j], last, PathSeparator);
        BelowIrreflexive(last);
      } else if ProperPrefix(ps, qs) {
        SegmentsPrefix(last, paths[j]);
        DirBeforeContents(paths, n - 1, j);
      } else if !ProperPrefix(qs, ps) {
        EarlierPathKept(paths, j);
      }
    }
  }

  /** The last of sorted paths is inserted last, and nothing lies inside it: it is a file. */
  lemma LastPathIsFile(paths: seq<string>)
    requires StrictlySorted(paths) && |paths| > 0
    ensures !Shadowed(paths, paths[|paths| - 1])
    ensures LeafAt(Build(paths), Segments(paths[|paths| - 1]))
  {
    var ps := Segments(paths[|paths| - 1]);
    InsertLookup(Build(paths[..|paths| - 1]), ps, ps);
    if Shadowed(paths, paths[|paths| - 1]) {
      var k :| 0 <= k < |paths| && IsDirPrefix(paths[|paths| - 1], paths[k]);
      DirBeforeContents(paths, |paths| - 1, k);
    }
  }

  /** A path the last insertion does not touch is found as the shorter list left it. */
  lemma {:induction false} EarlierPathKept(paths: seq<string>, j: int)
    requires StrictlySorted(paths) && 0 <= j < |paths| - 1
    requires !IsDirPrefix(paths[j], paths[|paths| - 1])
    requires Lookup(Build(paths), Segments(paths[j])) ==
      Lookup(Build(paths[..|paths| - 1]), Segments(paths[j]))
    ensures Shadowed(paths, paths[j]) ==> DirAt(Build(paths), Segments(paths[j]))
    ensures !Shadowed(paths, paths[j]) ==> LeafAt(Build(paths), Segments(paths[j]))
    decreases |paths|, 0
  {
    var init := paths[..|paths| - 1];
    SortedInit(paths);
    assert init[j] == paths[j];
    BuildLookup(init, j);
    ShadowedBefore(paths, j);
  }

  lemma SortedInit(paths: seq<string>)
    requires StrictlySorted(paths) && |paths| > 0
    ensures StrictlySorted(paths[..|paths| - 1])
  {
  }

  /** Dropping the last path keeps what lies inside an earlier one, unless the last does. */
  lemma ShadowedBefore(paths: seq<string>, j: int)
    requires 0 <= j < |paths| - 1
    requires !IsDirPrefix(paths[j], paths[|paths| - 1])
    ensures Shadowed(paths, paths[j]) <==> Shadowed(paths[..|paths| - 1], paths[j])
  {
    var init := paths[..|paths| - 1];
    if Shadowed(paths, paths[j]) {
      var k :| 0 <= k < |paths| && IsDirPrefix(paths[j], paths[k]);
      assert init[k] == paths[k];
    }
    if Shadowed(init, paths[j]) {
      var k :| 0 <= k < |init| && IsDirPrefix(paths[j], init[k]);
      assert paths[k] == init[k];
    }
  }

  /** The names directly inside the directory `ds` among the paths, each once, in the order
      they first appear. */
  function NamesUnder(paths: seq<string>, ds: seq<string>): seq<string>
    decreases |paths|
  {
    if paths == [] then []
    else
      var before := NamesUnder(paths[..|paths| - 1], ds);
      var ps := Segments(paths[|paths| - 1]);
      if ProperPrefix(ds, ps) then WithName(before, ps[|ds|]) else before
  }

  /** First segments of the paths, each once, in the order they first appear. */
  function TopNames(paths: seq<string>): seq<string> {
    NamesUnder(paths, [])
  }

  /** The top level of the trie lists first segments in the order they first appear. */
  lemma {:induction false} BuildTopLevel(paths: seq<string>)
    ensures KeysOf(Build(paths).entries) == TopNames(paths)
    decreases |paths|
  {
    if paths != [] {
      BuildTopLevel(paths[..|paths| - 1]);
      assert ProperPrefix([], Segments(paths[|paths| - 1]));
    }
  }

  /** The level of the trie at the directory `ds`: the root for no segments, the stored level
      when `ds` is a directory, and an empty level otherwise. */
  function LevelAt(n: Node, ds: seq<string>): Node {
    if ds == [] then n
    else
      var slot := Lookup(n, ds);
      if slot.Some? && slot.value.Dir? then slot.value.node else Node([])
  }

  /**
   * Built from sorted, distinct paths, every level of the trie lists the names directly
   * inside its directory, each once, in the order they first appear among the paths.
   */
  lemma {:induction false} BuildLevel(paths: seq<string>, ds: seq<string>)
    requires StrictlySorted(paths)
    ensures KeysOf(LevelAt(Build(paths), ds).entries) == NamesUnder(paths, ds)
    decreases |paths|
  {
    if paths != [] {
      var init := paths[..|paths| - 1];
      var ps := Segments(paths[|paths| - 1]);
      SortedInit(paths);
      BuildLevel(init, ds);
      if |ps| <= |ds| && ds[..|ps|] == ps {
        NothingInsideEarlier(paths, ds);
      }
      LevelStep(Build(init), NamesUnder(init, ds), ps, ds);
    }
  }

  /** One insertion extends the names at `ds` as `NamesUnder` does, provided a path at or above
      `ds` only comes while there is no name under it yet. */
  lemma LevelStep(n: Node, before: seq<string>, ps: seq<string>, ds: seq<string>)
    requires |ps| >= 1 && KeysOf(LevelAt(n, ds).entries) == before
    requires |ps| <= |ds| && ds[..|ps|] == ps ==> before == []
    ensures KeysOf(LevelAt(Insert(n, ps), ds).entries) ==
      if ProperPrefix(ds, ps) then WithName(before, ps[|ds|]) else before
  {
    if ProperPrefix(ds, ps) {
      InsertLevel(n, ps, ds);
    } else if |ps| <= |ds| && ds[..|ps|] == ps {
      InsertCovers(n, ps, ds);
    } else {
      assert ProperPrefix([], ps);
      InsertLookup(n, ps, ds);
    }
  }

  /** Looking a directory up from a level is looking its tail up from the level below. */
  lemma LevelAtTail(n: Node, ds: seq<string>)
    requires |ds| >= 1
    ensures LevelAt(n, ds) == LevelAt(SubLevel(n, ds[0]), ds[1..])
  {
    var slot := Get(n.entries, ds[0]);
    if !(slot.Some? && slot.value.Dir?) && |ds| > 1 {
      assert Get(SubLevel(n, ds[0]).entries, ds[1]) == None;
    }
  }

  /** Inserting a path inside `ds` lists its next segment at the end of the level at `ds`,
      unless that name is already there. */
  lemma InsertLevel(n: Node, ps: seq<string>, ds: seq<string>)
    requires ProperPrefix(ds, ps)
    ensures KeysOf(LevelAt(Insert(n, ps), ds).entries) ==
      WithName(KeysOf(LevelAt(n, ds).entries), ps[|ds|])
  {
    LevelAtInsert(n, ps, ds);
    assert ps[|ds|..][0] == ps[|ds|];
  }

  /** Inserting a path inside `ds` inserts the rest of it into the level at `ds`. */
  lemma {:induction false} LevelAtInsert(n: Node, ps: seq<string>, ds: seq<string>)
    requires ProperPrefix(ds, ps)
    ensures LevelAt(Insert(n, ps), ds) == Insert(LevelAt(n, ds), ps[|ds|..])
    decreases |ds|
  {
    if ds == [] {
      assert ps[|ds|..] == ps;
    } else {
      ProperPrefixRest(ds, ps);
      LevelsBelow(n, ps, ds);
      LevelAtInsert(SubLevel(n, ps[0]), ps[1..], ds[1..]);
    }
  }

  /** Below a shared first segment, a proper prefix stays a proper prefix with the same rest. */
  lemma ProperPrefixRest(a: seq<string>, b: seq<string>)
    requires ProperPrefix(a, b) && a != []
    ensures a[0] == b[0] && ProperPrefix(a[1..], b[1..])
    ensures b[1..][|a[1..]|..] == b[|a|..]
  {
    assert b[..|a|][0] == b[0];
    assert b[1..][..|a| - 1] == b[..|a|][1..];
  }

  /** The levels at `ds`, before and after inserting a path through `ds[0]`, seen one level down. */
  lemma LevelsBelow(n: Node, ps: seq<string>, ds: seq<string>)
    requires |ds| >= 1 && |ps| >= 2 && ds[0] == ps[0]
    ensures LevelAt(Insert(n, ps), ds) == LevelAt(Insert(SubLevel(n, ps[0]), ps[1..]), ds[1..])
    ensures LevelAt(n, ds) == LevelAt(SubLevel(n, ps[0]), ds[1..])
  {
    SubLevelAfterInsert(n, ps);
    LevelAtTail(Insert(n, ps), ds);
    LevelAtTail(n, ds);
  }

  /** Below its first segment, inserting a path of two or more segments inserts the rest. */
  lemma SubLevelAfterInsert(n: Node, ps: seq<string>)
    requires |ps| >= 2
    ensures SubLevel(Insert(n, ps), ps[0]) == Insert(SubLevel(n, ps[0]), ps[1..])
  {
  }

  /** Inserting `ds` itself or a path above it leaves no level at `ds`. */
  lemma InsertCovers(n: Node, ps: seq<string>, ds: seq<string>)
    requires 1 <= |ps| <= |ds| && ds[..|ps|] == ps
    ensures LevelAt(Insert(n, ps), ds).entries == []
  {
    InsertLookup(n, ps, ds);
    if |ps| == |ds| {
      assert ds == ps;
    }
  }

  /** With no path inside `ds` there is no name under it. */
  lemma {:induction false} NamesUnderNone(paths: seq<string>, ds: seq<string>)
    requires forall k :: 0 <= k < |paths| ==> !ProperPrefix(ds, Segments(paths[k]))
    ensures NamesUnder(paths, ds) == []
    decreases |paths|
  {
    if paths != [] {
      NamesUnderNone(paths[..|paths| - 1], ds);
    }
  }

  /** In sorted order nothing inside `ds` comes before a path at or above `ds`. */
  lemma NothingInsideEarlier(paths: seq<string>, ds: seq<string>)
    requires StrictlySorted(paths) && |paths| > 0
    requires var ps := Segments(paths[|paths| - 1]); |ps| <= |ds| && ds[..|ps|] == ps
    ensures NamesUnder(paths[..|paths| - 1], ds) == []
  {
    var n := |paths|;
    var init, ps := paths[..n - 1], Segments(paths[n - 1]);
    forall k | 0 <= k < |init| ensures !ProperPrefix(ds, Segments(init[k])) {
      if ProperPrefix(ds, Segments(init[k])) {
        var qs := Segments(paths[k]);
        assert init[k] == paths[k];
        assert qs[..|ps|] == qs[..|ds|][..|ps|];
        SegmentsPrefix(paths[n - 1], paths[k]);
        DirBeforeContents(paths, n - 1, k);
      }
    }
    NamesUnderNone(init, ds);
  }

  // ---------------------------------------------------------------------------
  // Converting the trie into tree items

  /** The item for the `i`-th entry of a level: a file name, or a folder holding the converted level. */
  function ChildItem(n: Node, i: nat): (t: TreeItem)
    requires i < |n.entries|
    ensures t.name == n.entries[i].0
    ensures t.Folder? <==> n.entries[i].1.Dir?
    decreases n, 0
  {
    var (key, slot) := n.entries[i];
    match slot
    case Leaf => File(key)
    case Dir(m) =>
      match Convert(m, Some(key))
      case Items(cs) => Folder(key, cs)
      case Single(t) => Folder(key, [t])
  }

  /** The items for the first `i` entries of a level, in entry order. */
  function ChildItems(n: Node, i: nat): (items: seq<TreeItem>)
    requires i <= |n.entries|
    ensures |items| == i
    ensures forall k :: 0 <= k < i ==> items[k] == ChildItem(n, k)
    decreases n, i
  {
    if i == 0 then [] else ChildItems(n, i - 1) + [ChildItem(n, i - 1)]
  }

  /** The converted children of a level: an empty level yields its own name (or the empty name). */
  function Convert(n: Node, name: Option<string>): Converted
    decreases n
  {
    if n.entries == [] then Single(File(name.GetOr("")))
    else Items(ChildItems(n, |n.entries|))
  }

  function Children(n: Node): seq<TreeItem> {
    ChildItems(n, |n.entries|)
  }

  /** The tree items for a collection of files: the root's conversion, as a list. */
  function TreeItemsOf(files: FileCollection): seq<TreeItem> {
    match Convert(Build(Sort(KeysOf(files))), None)
    case Items(items) => items
    case Single(t) => [t]
  }

  function Names(items: seq<TreeItem>): (r: seq<string>)
    ensures |r| == |items|
    ensures forall k :: 0 <= k < |items| ==> r[k] == items[k].name
  {
    if items == [] then [] else [items[0].name] + Names(items[1..])
  }

  /** The items show an entry at the segments `ps`: a folder when `folder`, a file otherwise. */
  predicate Shows(items: seq<TreeItem>, ps: seq<string>, folder: bool)
    requires |ps| >= 1
    decreases |ps|
  {
    if |ps| == 1 then
      exists k :: 0 <= k < |items| && items[k].name == ps[0] && items[k].Folder? == folder
    else
      exists k :: 0 <= k < |items| && items[k].Folder? && items[k].name == ps[0] &&
        Shows(items[k].children, ps[1..], folder)
  }

  /** A directory level of a well-formed trie converts to a folder holding its children. */
  lemma DirItem(n: Node, i: nat)
    requires WellFormedTree(n) && i < |n.entries| && n.entries[i].1.Dir?
    ensures ChildItem(n, i) == Folder(n.entries[i].0, Children(n.entries[i].1.node))
  {
  }

  /** The converted children show exactly what the trie holds, files as files, directories as folders. */
  lemma ShownAt(n: Node, ps: seq<string>, folder: bool)
    requires |ps| >= 1 && WellFormedTree(n)
    ensures Shows(Children(n), ps, folder) <==>
      Lookup(n, ps).Some? && Lookup(n, ps).value.Dir? == folder
  {
    if Lookup(n, ps).Some? && Lookup(n, ps).value.Dir? == folder {
      ShownIfHeld(n, ps, folder);
    }
    if Shows(Children(n), ps, folder) {
      HeldIfShown(n, ps, folder);
    }
  }

  lemma {:induction false} ShownIfHeld(n: Node, ps: seq<string>, folder: bool)
    requires |ps| >= 1 && WellFormedTree(n)
    requires Lookup(n, ps).Some? && Lookup(n, ps).value.Dir? == folder
    ensures Shows(Children(n), ps, folder)
    decreases |ps|
  {
    var items := Children(n);
    var slot := Get(n.entries, ps[0]);
    var i :| 0 <= i < |n.entries| && n.entries[i] == (ps[0], slot.value);
    assert items[i].name == ps[0] && items[i].Folder? == slot.value.Dir?;
    if |ps| > 1 {
      var m := slot.value.node;
      DirItem(n, i);
      ShownIfHeld(m, ps[1..], folder);
      assert items[i].children == Children(m);
    }
  }

  lemma {:induction false} HeldIfShown(n: Node, ps: seq<string>, folder: bool)
    requires |ps| >= 1 && WellFormedTree(n)
    requires Shows(Children(n), ps, folder)
    ensures Lookup(n, ps).Some? && Lookup(n, ps).value.Dir? == folder
    decreases |ps|
  {
    var items := Children(n);
    var k :| 0 <= k < |items| && items[k].name == ps[0] && (|ps| == 1 ==> items[k].Folder? == folder)
      && (|ps| > 1 ==> items[k].Folder? && Shows(items[k].children, ps[1..], folder));
    GetUnique(n.entries, k);
    if |ps| > 1 {
      DirItem(n, k);
      HeldIfShown(n.entries[k].1.node, ps[1..], folder);
    }
  }

  /** Some path of the collection lies inside `p` taken as a directory. */
  predicate HasContents(files: FileCollection, p: string) {
    exists q :: q in KeysOf(files) && IsDirPrefix(p, q)
  }

  /**
   * Every path of the collection appears in the tree at its segments: as a file when no other
   * path lies inside it, and as a folder, never a file, when one does.
   */
  lemma PathsShown(files: FileCollection, p: string)
    requires p in KeysOf(files)
    ensures Shows(TreeItemsOf(files), Segments(p), false) <==> !HasContents(files, p)
    ensures Shows(TreeItemsOf(files), Segments(p), true) <==> HasContents(files, p)
  {
    var sorted := Sort(KeysOf(files));
    SortedPaths(files);
    var j :| 0 <= j < |sorted| && sorted[j] == p;
    BuildLookup(sorted, j);
    BuildWellFormed(sorted);
    ShownAt(Build(sorted), Segments(p), false);
    ShownAt(Build(sorted), Segments(p), true);
    ShadowedInSorted(files, p);
  }

  /** The sorted paths are strictly increasing and hold exactly the paths of the collection. */
  lemma SortedPaths(files: FileCollection)
    ensures StrictlySorted(Sort(KeysOf(files)))
    ensures forall q :: q in Sort(KeysOf(files)) <==> q in KeysOf(files)
  {
    var keys := KeysOf(files);
    SortDistinct(keys);
    assert forall q :: q in Sort(keys) <==> q in multiset(keys);
  }

  lemma ShadowedInSorted(files: FileCollection, p: string)
    ensures Shadowed(Sort(KeysOf(files)), p) <==> HasContents(files, p)
  {
    var sorted := Sort(KeysOf(files));
    SortedPaths(files);
    if Shadowed(sorted, p) {
      var k :| 0 <= k < |sorted| && IsDirPrefix(p, sorted[k]);
      assert sorted[k] in sorted;
    }
    if HasContents(files, p) {
      var q :| q in KeysOf(files) && IsDirPrefix(p, q);
      var k :| 0 <= k < |sorted| && sorted[k] == q;
    }
  }

  /**
   * No files give the single empty name; otherwise the top level lists each first segment once,
   * in the order of the sorted paths.
   */
  lemma TopLevel(files: FileCollection)
    ensures files == [] ==> TreeItemsOf(files) == [File("")]
    ensures files != [] ==> Names(TreeItemsOf(files)) == TopNames(Sort(KeysOf(files)))
  {
    var sorted := Sort(KeysOf(files));
    if files == [] {
      assert |multiset(sorted)| == 0;
    } else {
      assert |multiset(sorted)| == |files|;
      BuildWellFormed(sorted);
      BuildTopLevel(sorted);
    }
  }

  /** A folder's children have distinct names, all the way down. */
  predicate WellNamed(t: TreeItem)
    decreases t
  {
    t.Folder? ==>
      Distinct(Names(t.children)) && forall k :: 0 <= k < |t.children| ==> WellNamed(t.children[k])
  }

  lemma {:induction false} ChildrenWellNamed(n: Node)
    requires WellFormedTree(n)
    ensures Distinct(Names(Children(n)))
    ensures forall k :: 0 <= k < |Children(n)| ==> WellNamed(Children(n)[k])
    decreases n
  {
    assert Names(Children(n)) == KeysOf(n.entries);
    forall k | 0 <= k < |n.entries|
      ensures WellNamed(Children(n)[k])
    {
      if n.entries[k].1.Dir? {
        DirItem(n, k);
        ChildrenWellNamed(n.entries[k].1.node);
      }
    }
  }

  /** Items on the same level never share a name: files in one directory are grouped together. */
  lemma SiblingNamesDistinct(files: FileCollection)
    ensures Distinct(Names(TreeItemsOf(files)))
    ensures forall k :: 0 <= k < |TreeItemsOf(files)| ==> WellNamed(TreeItemsOf(files)[k])
  {
    var root := Build(Sort(KeysOf(files)));
    BuildWellFormed(Sort(KeysOf(files)));
    if root.entries != [] {
      ChildrenWellNamed(root);
    }
  }

  /** Converts one level, pushing each entry's item in turn and recursing into directories. */
  method ConvertNode(n: Node, name: Option<string>) returns (r: Converted)
    ensures r == Convert(n, name)
    decreases n
  {
    if n.entries == [] {
      return Single(File(name.GetOr("")));
    }
    var children: seq<TreeItem> := [];
    var i := 0;
    while i < |n.entries|
      invariant 0 <= i <= |n.entries|
      invariant children == ChildItems(n, i)
    {
      var (key, slot) := n.entries[i];
      match slot {
        case Leaf =>
          children := children + [File(key)];
        case Dir(m) =>
          var sub := ConvertNode(m, Some(key));
          match sub {
            case Items(cs) => children := children + [Folder(key, cs)];
            case Single(t) => children := children + [Folder(key, [t])];
          }
      }
      i := i + 1;
    }
    return Items(children);
  }

  /** Sorts the paths, inserts them into the trie one by one, then converts the root. */
  method ConvertFilesToTreeItems(files: FileCollection) returns (items: seq<TreeItem>)
    ensures items == TreeItemsOf(files)
  {
    var sortedPaths := Sort(KeysOf(files));
    var tree := BuildTree(sortedPaths);
    var result := ConvertNode(tree, None);
    match result {
      case Items(xs) => items := xs;
      case Single(t) => items := [t];
    }
  }

  /** The outer loop: each path split on '/' and inserted into the trie, in order. */
  method BuildTree(paths: seq<string>) returns (tree: Node)
    ensures tree == Build(paths)
  {
    tree := Node([]);
    var i := 0;
    while i < |paths|
      invariant 0 <= i <= |paths|
      invariant tree == Build(paths[..i])
    {
      assert paths[..i + 1][..i] == paths[..i];
      tree := Insert(tree, Segments(paths[i]));
      i := i + 1;
    }
    assert paths[..i] == paths;
  }
}
