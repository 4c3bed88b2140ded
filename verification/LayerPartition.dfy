/** The layers of a tree partition it: every entry is streamed by exactly one layer, the
    one rooted at the nearest layer directory above it, and parents come first. */
module LayerPartition {
  import opened Layers

  // ----- Walks -------------------------------------------------------------------------

  /** A walk meets `q` below entry `k` of a directory. */
  ghost predicate InChild(ex: Path -> bool, stop: set<Path>, top: Path, path: Path, entries: seq<Entry>, k: nat,
          q: Item)
  {
    k < |entries| && q in Walk(ex, stop, top, path + [entries[k].name], entries[k].node)
  }

  /** A walk over the entries of a directory is the walks over its children. */
  lemma {:induction false} EntriesMember(ex: Path -> bool, stop: set<Path>, top: Path, path: Path,
          entries: seq<Entry>, q: Item)
    ensures q in WalkEntries(ex, stop, top, path, entries) <==>
        exists k: nat :: InChild(ex, stop, top, path, entries, k, q)
    decreases |entries|
  {
    if entries != [] {
      var n := |entries| - 1;
      EntriesMember(ex, stop, top, path, entries[..n], q);
      if q in WalkEntries(ex, stop, top, path, entries[..n]) {
        var k: nat :| InChild(ex, stop, top, path, entries[..n], k, q);
        assert InChild(ex, stop, top, path, entries, k, q);
      } else if k: nat :| InChild(ex, stop, top, path, entries, k, q) {
        assert k < n ==> InChild(ex, stop, top, path, entries[..n], k, q);
      } else {
        assert !InChild(ex, stop, top, path, entries, n, q);
      }
    }
  }

  /** Everything met below a directory lies below it. */
  lemma {:induction false} ItemsBelow(ex: Path -> bool, stop: set<Path>, top: Path, path: Path, node: Node, q: Item)
    requires q in Walk(ex, stop, top, path, node)
    ensures path <= q.path && !Excluded(ex, path) && (q.path == path ==> q.kind == Directory || node.Leaf?)
    decreases node
  {
    if node.Dir? && q != Item(path, Directory, 0) {
      EntriesMember(ex, stop, top, path, node.entries, q);
      var k: nat :| InChild(ex, stop, top, path, node.entries, k, q);
      ItemsBelow(ex, stop, top, path + [node.entries[k].name], node.entries[k].node, q);
    }
  }

  lemma EntriesBelow(ex: Path -> bool, stop: set<Path>, top: Path, path: Path, entries: seq<Entry>, q: Item)
    returns (k: nat)
    requires q in WalkEntries(ex, stop, top, path, entries)
    ensures path < q.path && k < |entries| && q.path[|path|] == entries[k].name
    ensures q in Walk(ex, stop, top, path + [entries[k].name], entries[k].node)
  {
    EntriesMember(ex, stop, top, path, entries, q);
    k :| InChild(ex, stop, top, path, entries, k, q);
    ItemsBelow(ex, stop, top, path + [entries[k].name], entries[k].node, q);
  }

  /** No directory of `stop` other than `top` lies between `path` and `p`. */
  ghost predicate Unblocked(stop: set<Path>, top: Path, path: Path, p: Path)
  {
    forall r :: r in stop && path <= r <= p ==> r == top
  }

  lemma UnblockedBelow(stop: set<Path>, top: Path, path: Path, p: Path)
    requires path < p
    ensures Unblocked(stop, top, path, p) <==>
      Unblocked(stop, top, path + [p[|path|]], p) && (path in stop ==> path == top)
  {
    forall r | r in stop && path <= r <= p && r != path ensures path + [p[|path|]] <= r {
      assert r[|path|] == p[|path|];
    }
  }

  lemma ChildIn(ex: Path -> bool, stop: set<Path>, top: Path, path: Path, entries: seq<Entry>, k: nat, q: Item)
    requires k < |entries| && q in Walk(ex, stop, top, path + [entries[k].name], entries[k].node)
    ensures q in WalkEntries(ex, stop, top, path, entries)
  {
    assert InChild(ex, stop, top, path, entries, k, q);
    EntriesMember(ex, stop, top, path, entries, q);
  }

  /** What a walk meets at its starting point. */
  lemma WalkHere(ex: Path -> bool, stop: set<Path>, top: Path, path: Path, node: Node, q: Item)
    requires WellNamed(node) && q.path == path && (q.kind == Directory || path !in stop)
    ensures q in Walk(ex, stop, top, path, node) <==>
      q in Everything(ex, path, node) && Unblocked(stop, top, path, path)
  {
    assert forall r :: r in stop && path <= r <= path ==> r == path;
    if node.Dir? {
      if q in WalkEntries(ex, stop, top, path, node.entries) {
        var _ := EntriesBelow(ex, stop, top, path, node.entries, q);
      }
      if q in WalkEntries(ex, {}, [], path, node.entries) {
        var _ := EntriesBelow(ex, {}, [], path, node.entries, q);
      }
    }
  }

  /** A walk meets exactly the entries that no directory of `stop` separates from it. */
  lemma {:induction false} WalkMember(ex: Path -> bool, stop: set<Path>, top: Path, path: Path, node: Node, q: Item)
    requires WellNamed(node) && (q.kind == Directory || q.path !in stop)
    ensures q in Walk(ex, stop, top, path, node) <==>
      q in Everything(ex, path, node) && Unblocked(stop, top, path, q.path)
    decreases node
  {
    if q.path == path {
      WalkHere(ex, stop, top, path, node, q);
    } else if node.Dir? && q in Walk(ex, stop, top, path, node) {
      var k := EntriesBelow(ex, stop, top, path, node.entries, q);
      WalkMember(ex, stop, top, path + [node.entries[k].name], node.entries[k].node, q);
      ChildIn(ex, {}, [], path, node.entries, k, q);
      UnblockedBelow(stop, top, path, q.path);
    } else if node.Dir? && q in Everything(ex, path, node) && Unblocked(stop, top, path, q.path) {
      var k := EntriesBelow(ex, {}, [], path, node.entries, q);
      UnblockedBelow(stop, top, path, q.path);
      WalkMember(ex, stop, top, path + [node.entries[k].name], node.entries[k].node, q);
      ChildIn(ex, stop, top, path, node.entries, k, q);
    }
  }

  /** Below a directory of the tree, a walk meets what the walk over the whole tree does. */
  lemma {:induction false} SubtreeMember(ex: Path -> bool, path: Path, node: Node, target: Path, q: Item)
    requires WellNamed(node) && Reaches(ex, path, node, target) && At(path, node, target).Some?
    ensures q in Everything(ex, target, At(path, node, target).value) <==>
        q in Everything(ex, path, node) && target <= q.path
    decreases |target| - |path|
  {
    if target == path {
      if q in Everything(ex, path, node) {
        ItemsBelow(ex, {}, [], path, node, q);
      }
    } else {
      var k := IndexOf(node.entries, target[|path|]);
      var child := path + [node.entries[k].name];
      SubtreeMember(ex, child, node.entries[k].node, target, q);
      if q in Everything(ex, child, node.entries[k].node) {
        ChildIn(ex, {}, [], path, node.entries, k, q);
      }
      if q in Everything(ex, path, node) && target <= q.path {
        var j := EntriesBelow(ex, {}, [], path, node.entries, q);
        assert node.entries[j].name == q.path[|path|] == target[|path|];
      }
    }
  }

  /** `target` is a directory of the tree that no exclusion hides. */
  ghost predicate Reaches(ex: Path -> bool, path: Path, node: Node, target: Path)
    decreases |target| - |path|
  {
    && node.Dir? && !Excluded(ex, path)
    && (target == path ||
        (path < target &&
         var k := IndexOf(node.entries, target[|path|]);
         k < |node.entries| && Reaches(ex, path + [target[|path|]], node.entries[k].node, target)))
  }

  lemma {:induction false} ReachesAt(ex: Path -> bool, path: Path, node: Node, target: Path)
    requires Reaches(ex, path, node, target)
    ensures path <= target && At(path, node, target).Some? && At(path, node, target).value.Dir?
    decreases |target| - |path|
  {
    if target != path {
      var k := IndexOf(node.entries, target[|path|]);
      ReachesAt(ex, path + [target[|path|]], node.entries[k].node, target);
    }
  }

  // ----- What a walk means ---------------------------------------------------------------------

  /** The entry a node makes at a path. */
  function ItemAt(path: Path, node: Node): Item
  {
    match node
    case Leaf(kind, size) => Item(path, kind, size)
    case Dir(_) => Item(path, Directory, 0)
  }

  /** Neither `p` nor a directory above it, down from `path`, is excluded. */
  ghost predicate NoneExcluded(ex: Path -> bool, path: Path, p: Path)
    requires path <= p
  {
    forall k :: |path| <= k <= |p| ==> !Excluded(ex, p[..k])
  }

  /** `q` is an entry of the tree that no exclusion hides. */
  ghost predicate IsEntry(ex: Path -> bool, path: Path, node: Node, q: Item)
  {
    && path <= q.path && At(path, node, q.path).Some? && q == ItemAt(q.path, At(path, node, q.path).value)
    && NoneExcluded(ex, path, q.path)
  }

  lemma NoneExcludedBelow(ex: Path -> bool, path: Path, p: Path)
    requires path < p
    ensures path + [p[|path|]] <= p
    ensures NoneExcluded(ex, path, p) <==> !Excluded(ex, path) && NoneExcluded(ex, path + [p[|path|]], p)
  {
    assert p[..|path|] == path;
  }

  /** What a walk without stops meets is exactly the entries of the tree that are not excluded,
      and below no excluded directory. */
  lemma {:induction false} EverythingIsEntries(ex: Path -> bool, path: Path, node: Node, q: Item)
    requires WellNamed(node)
    ensures q in Everything(ex, path, node) <==> IsEntry(ex, path, node, q)
    decreases node
  {
    if q.path == path {
      assert q.path[..|path|] == path;
      EverythingHere(ex, path, node, q);
    } else if node.Dir? && path < q.path {
      NoneExcludedBelow(ex, path, q.path);
      var k := IndexOf(node.entries, q.path[|path|]);
      var child := path + [q.path[|path|]];
      if q in Everything(ex, path, node) {
        var j := EntriesBelow(ex, {}, [], path, node.entries, q);
        assert j == k;
        EverythingIsEntries(ex, child, node.entries[k].node, q);
      }
      if IsEntry(ex, path, node, q) {
        EverythingIsEntries(ex, child, node.entries[k].node, q);
        ChildIn(ex, {}, [], path, node.entries, k, q);
      }
    } else if q in Everything(ex, path, node) {
      ItemsBelow(ex, {}, [], path, node, q);
    }
  }

  lemma EverythingHere(ex: Path -> bool, path: Path, node: Node, q: Item)
    requires q.path == path
    ensures q in Everything(ex, path, node) <==> q == ItemAt(path, node) && !Excluded(ex, path)
  {
    if node.Dir? && q in WalkEntries(ex, {}, [], path, node.entries) {
      var _ := EntriesBelow(ex, {}, [], path, node.entries, q);
    }
  }

  /** A walk meets exactly the entries that are not excluded and that no directory of `stop`
      separates from it. */
  lemma WalkMeets(ex: Path -> bool, stop: set<Path>, top: Path, path: Path, node: Node, q: Item)
    requires WellNamed(node) && (q.kind == Directory || q.path !in stop)
    ensures q in Walk(ex, stop, top, path, node) <==>
      IsEntry(ex, path, node, q) && Unblocked(stop, top, path, q.path)
  {
    WalkMember(ex, stop, top, path, node, q);
    EverythingIsEntries(ex, path, node, q);
  }

  // ----- The shape of a split --------------------------------------------------------------

  ghost predicate IsRoot(layers: seq<Layer>, p: Path)
  {
    exists i :: 0 <= i < |layers| && layers[i].root == p
  }

  /** Some directory of `skip` is `p` or lies above it. */
  ghost predicate Covers(skip: seq<Path>, p: Path)
  {
    exists s :: s in skip && s <= p
  }

  /** No member of `skip` lies below another. */
  ghost predicate Antichain(skip: seq<Path>)
  {
    forall s, t :: s in skip && t in skip && s <= t ==> s == t
  }

  /** `skip` holds layer roots, none below another, and every layer root lies at or below one
      of them. */
  ghost predicate Tops(layers: seq<Layer>, skip: seq<Path>)
  {
    && (forall s :: s in skip ==> IsRoot(layers, s))
    && (forall i :: 0 <= i < |layers| ==> Covers(skip, layers[i].root))
    && Antichain(skip)
  }

  /** `s` is a layer root and no other layer root lies above it. */
  ghost predicate IsTop(layers: seq<Layer>, s: Path)
  {
    IsRoot(layers, s) && forall r :: IsRoot(layers, r) && r <= s ==> r == s
  }

  /** `skip` is exactly the topmost layer roots. */
  ghost predicate Topmost(layers: seq<Layer>, skip: seq<Path>)
  {
    forall s :: s in skip <==> IsTop(layers, s)
  }

  /** `s` is a layer root strictly below `top`, and no other such root lies above it. */
  ghost predicate IsTopBelow(layers: seq<Layer>, top: Path, s: Path)
  {
    top < s && IsRoot(layers, s) && forall r :: IsRoot(layers, r) && top < r <= s ==> r == s
  }

  /** A layer's skip list is exactly the topmost layer roots strictly below its root. */
  ghost predicate SkipsTopmost(layers: seq<Layer>, l: Layer)
  {
    forall s :: s in l.skip <==> IsTopBelow(layers, l.root, s)
  }

  /** Descendants come before ancestors, and no root occurs twice. */
  ghost predicate BottomUp(layers: seq<Layer>)
  {
    forall i, j :: 0 <= i < j < |layers| ==> !(layers[i].root <= layers[j].root)
  }

  /** A layer skips layer roots strictly below its own, none below another, and every layer
      root strictly below its own lies at or below one of them. */
  ghost predicate SkipsBelow(layers: seq<Layer>, l: Layer)
  {
    && Antichain(l.skip)
    && (forall s :: s in l.skip ==> l.root < s && IsRoot(layers, s))
    && (forall j :: 0 <= j < |layers| && l.root < layers[j].root ==> Covers(l.skip, layers[j].root))
  }

  ghost predicate Split(layers: seq<Layer>)
  {
    BottomUp(layers) && forall i :: 0 <= i < |layers| ==> SkipsBelow(layers, layers[i])
  }

  /** Two groups of layers below different siblings. */
  ghost predicate Apart(a: seq<Layer>, b: seq<Layer>)
  {
    forall i, j :: 0 <= i < |a| && 0 <= j < |b| ==> !(a[i].root <= b[j].root) && !(b[j].root <= a[i].root)
  }

  lemma IsRootOf(a: seq<Layer>, b: seq<Layer>, p: Path)
    ensures IsRoot(a + b, p) <==> IsRoot(a, p) || IsRoot(b, p)
  {
    if IsRoot(a, p) {
      var i :| 0 <= i < |a| && a[i].root == p;
      assert (a + b)[i].root == p;
    }
    if IsRoot(b, p) {
      var i :| 0 <= i < |b| && b[i].root == p;
      assert (a + b)[|a| + i].root == p;
    }
  }

  lemma SkipsBelowAfter(a: seq<Layer>, b: seq<Layer>, l: Layer)
    requires SkipsBelow(a, l) && forall j :: 0 <= j < |b| ==> !(l.root < b[j].root)
    ensures SkipsBelow(a + b, l) && SkipsBelow(b + a, l)
  {
    forall s | s in l.skip ensures l.root < s && IsRoot(a + b, s) && IsRoot(b + a, s) {
      IsRootOf(a, b, s);
      IsRootOf(b, a, s);
    }
  }

  lemma SplitMerge(a: seq<Layer>, b: seq<Layer>)
    requires Split(a) && Split(b) && Apart(a, b)
    ensures Split(a + b)
  {
    var c := a + b;
    forall i | 0 <= i < |c| ensures SkipsBelow(c, c[i]) {
      if i < |a| {
        SkipsBelowAfter(a, b, a[i]);
      } else {
        SkipsBelowAfter(b, a, b[i - |a|]);
      }
    }
  }

  lemma AntichainMerge(a: Analysis, b: Analysis)
    requires Tops(a.layers, a.skip) && Tops(b.layers, b.skip) && Apart(a.layers, b.layers)
    ensures Antichain(a.skip + b.skip)
  {
    forall s, t | s in a.skip && t in b.skip ensures !(s <= t) && !(t <= s) {
      assert IsRoot(a.layers, s) && IsRoot(b.layers, t);
      var i :| 0 <= i < |a.layers| && a.layers[i].root == s;
      var j :| 0 <= j < |b.layers| && b.layers[j].root == t;
    }
  }

  lemma TopsMerge(a: Analysis, b: Analysis)
    requires Tops(a.layers, a.skip) && Tops(b.layers, b.skip) && Apart(a.layers, b.layers)
    ensures Tops(a.layers + b.layers, a.skip + b.skip)
  {
    var layers, skip := a.layers + b.layers, a.skip + b.skip;
    AntichainMerge(a, b);
    forall s | s in skip ensures IsRoot(layers, s) {
      IsRootOf(a.layers, b.layers, s);
    }
    forall i | 0 <= i < |layers| ensures Covers(skip, layers[i].root) {
      if i < |a.layers| {
        assert Covers(a.skip, a.layers[i].root);
        var s :| s in a.skip && s <= a.layers[i].root;
        assert s in skip;
      } else {
        var j := i - |a.layers|;
        assert Covers(b.skip, b.layers[j].root);
        var s :| s in b.skip && s <= b.layers[j].root;
        assert s in skip;
      }
    }
  }

  /** Turning a directory into a layer: its skip list is the topmost roots below it. */
  lemma CloseSplits(a: Analysis, path: Path)
    requires Split(a.layers) && Tops(a.layers, a.skip)
    requires (forall l :: l in a.layers ==> path < l.root) && (forall s :: s in a.skip ==> path < s)
    ensures Split(Close(a, path).layers) && Tops(Close(a, path).layers, [path])
  {
    var layers := Close(a, path).layers;
    forall i | 0 <= i < |layers| ensures SkipsBelow(layers, layers[i]) {
      if i < |a.layers| {
        RootBelowNone(a, path, i);
      } else {
        RootSkips(a, path);
      }
    }
    CloseBottomUp(a, path);
    CloseTops(a, path);
  }

  lemma RootBelowNone(a: Analysis, path: Path, i: nat)
    requires i < |a.layers| && SkipsBelow(a.layers, a.layers[i]) && forall l :: l in a.layers ==> path < l.root
    ensures SkipsBelow(Close(a, path).layers, a.layers[i])
  {
    assert a.layers[i] in a.layers;
    SkipsBelowAfter(a.layers, [Layer(path, a.skip, a.size)], a.layers[i]);
  }

  lemma RootSkips(a: Analysis, path: Path)
    requires Tops(a.layers, a.skip) && forall s :: s in a.skip ==> path < s
    ensures SkipsBelow(Close(a, path).layers, Layer(path, a.skip, a.size))
  {
    var last := Layer(path, a.skip, a.size);
    assert SkipsBelow(a.layers, last);
    SkipsBelowAfter(a.layers, [last], last);
  }

  lemma CloseBottomUp(a: Analysis, path: Path)
    requires BottomUp(a.layers) && forall l :: l in a.layers ==> path < l.root
    ensures BottomUp(Close(a, path).layers)
  {
    var layers := Close(a, path).layers;
    forall i, j | 0 <= i < j < |layers| ensures !(layers[i].root <= layers[j].root) {
      assert a.layers[i] in a.layers;
    }
  }

  lemma CloseTops(a: Analysis, path: Path)
    requires forall l :: l in a.layers ==> path < l.root
    ensures Tops(Close(a, path).layers, [path])
  {
    var layers := Close(a, path).layers;
    assert layers[|a.layers|].root == path;
    forall i | 0 <= i < |layers| ensures Covers([path], layers[i].root) {
      assert path in [path] && (i < |a.layers| ==> a.layers[i] in a.layers);
    }
  }

  /** The layers found below the first entries of a directory. */
  lemma {:induction false} LayersUnderEntries(ex: Path -> bool, threshold: int, path: Path, entries: seq<Entry>,
          l: Layer) returns (k: nat)
    requires l in AnalyzeEntries(ex, threshold, path, entries).layers
    ensures k < |entries| && path + [entries[k].name] <= l.root
    decreases |entries|
  {
    var n := |entries| - 1;
    if l in AnalyzeEntries(ex, threshold, path, entries[..n]).layers {
      k := LayersUnderEntries(ex, threshold, path, entries[..n], l);
    } else {
      k := n;
      RootsBelow(ex, threshold, path + [entries[n].name], entries[n].node.entries);
    }
  }

  function Child(ex: Path -> bool, threshold: int, path: Path, entries: seq<Entry>): Analysis
  {
    var b := AnalyzeEntries(ex, threshold, path, entries);
    if b.size >= threshold then Close(b, path) else b
  }

  lemma SiblingsApart(ex: Path -> bool, threshold: int, path: Path, entries: seq<Entry>, n: nat)
    requires WellNamed(Dir(entries)) && n < |entries| && entries[n].node.Dir?
    ensures Apart(AnalyzeEntries(ex, threshold, path, entries[..n]).layers,
                  Child(ex, threshold, path + [entries[n].name], entries[n].node.entries).layers)
  {
    var a := AnalyzeEntries(ex, threshold, path, entries[..n]).layers;
    var child := path + [entries[n].name];
    var b := Child(ex, threshold, child, entries[n].node.entries).layers;
    RootsBelow(ex, threshold, child, entries[n].node.entries);
    forall i, j | 0 <= i < |a| && 0 <= j < |b| ensures !(a[i].root <= b[j].root) && !(b[j].root <= a[i].root) {
      var k := LayersUnderEntries(ex, threshold, path, entries[..n], a[i]);
      assert b[j] in b && child <= b[j].root;
      assert a[i].root[|path|] == entries[k].name && b[j].root[|path|] == entries[n].name;
    }
  }

  lemma TopsAreTopmost(layers: seq<Layer>, skip: seq<Path>)
    requires Tops(layers, skip)
    ensures Topmost(layers, skip)
  {
    forall s, r | s in skip && IsRoot(layers, r) && r <= s ensures r == s {
      var i :| 0 <= i < |layers| && layers[i].root == r;
      var t :| t in skip && t <= r;
      assert t == s;
    }
    forall s | IsTop(layers, s) ensures s in skip {
      var i :| 0 <= i < |layers| && layers[i].root == s;
      var t :| t in skip && t <= layers[i].root;
      assert IsRoot(layers, t);
    }
  }

  lemma SkipsBelowIsTopmost(layers: seq<Layer>, l: Layer)
    requires SkipsBelow(layers, l)
    ensures SkipsTopmost(layers, l)
  {
    forall s, r | s in l.skip && IsRoot(layers, r) && l.root < r <= s ensures r == s {
      var i :| 0 <= i < |layers| && layers[i].root == r;
      var t :| t in l.skip && t <= layers[i].root;
      assert t == s;
    }
    forall s | IsTopBelow(layers, l.root, s) ensures s in l.skip {
      var i :| 0 <= i < |layers| && layers[i].root == s;
      var t :| t in l.skip && t <= layers[i].root;
      assert IsRoot(layers, t);
    }
  }

  /** Every layer skips exactly the topmost layer roots strictly below its root, and the list
      handed to the parent is exactly the topmost layer roots. */
  lemma SkipListsAreTopmost(ex: Path -> bool, threshold: int, path: Path, entries: seq<Entry>)
    requires WellNamed(Dir(entries))
    ensures var a := AnalyzeEntries(ex, threshold, path, entries);
      && BottomUp(a.layers) && Topmost(a.layers, a.skip)
      && forall i :: 0 <= i < |a.layers| ==> SkipsTopmost(a.layers, a.layers[i])
  {
    var a := AnalyzeEntries(ex, threshold, path, entries);
    AnalysisSplits(ex, threshold, path, entries);
    TopsAreTopmost(a.layers, a.skip);
    forall i | 0 <= i < |a.layers| ensures SkipsTopmost(a.layers, a.layers[i]) {
      assert SkipsBelow(a.layers, a.layers[i]);
      SkipsBelowIsTopmost(a.layers, a.layers[i]);
    }
  }

  lemma {:induction false} AnalysisSplits(ex: Path -> bool, threshold: int, path: Path, entries: seq<Entry>)
    requires WellNamed(Dir(entries))
    ensures var a := AnalyzeEntries(ex, threshold, path, entries); Split(a.layers) && Tops(a.layers, a.skip)
    decreases entries
  {
    if entries != [] {
      var n := |entries| - 1;
      var a := AnalyzeEntries(ex, threshold, path, entries[..n]);
      AnalysisSplits(ex, threshold, path, entries[..n]);
      var child := path + [entries[n].name];
      if entries[n].node.Dir? && !ex(child) {
        var below := entries[n].node.entries;
        var b := AnalyzeEntries(ex, threshold, child, below);
        AnalysisSplits(ex, threshold, child, below);
        RootsBelow(ex, threshold, child, below);
        CloseSplits(b, child);
        SiblingsApart(ex, threshold, path, entries, n);
        var c := Child(ex, threshold, child, below);
        SplitMerge(a.layers, c.layers);
        TopsMerge(a, c);
      }
    }
  }

  /** A layer found below `path` is rooted at a directory of the tree, reaches the
      threshold, and holds what the analysis of that directory found. */
  ghost predicate FromAnalysis(ex: Path -> bool, threshold: int, path: Path, node: Node, l: Layer)
  {
    && Reaches(ex, path, node, l.root) && At(path, node, l.root).Some? && At(path, node, l.root).value.Dir?
    && var e := AnalyzeEntries(ex, threshold, l.root, At(path, node, l.root).value.entries);
       l == Layer(l.root, e.skip, e.size) && e.size >= threshold
  }

  lemma FromChild(ex: Path -> bool, threshold: int, path: Path, entries: seq<Entry>, k: nat, l: Layer)
    requires WellNamed(Dir(entries)) && k < |entries| && !Excluded(ex, path)
    requires path + [entries[k].name] <= l.root
    requires FromAnalysis(ex, threshold, path + [entries[k].name], entries[k].node, l)
    ensures FromAnalysis(ex, threshold, path, Dir(entries), l)
  {
    assert l.root[|path|] == entries[k].name;
    assert IndexOf(entries, entries[k].name) == k;
  }

  lemma {:induction false} LayersFromAnalysis(ex: Path -> bool, threshold: int, path: Path, entries: seq<Entry>,
          m: nat, l: Layer)
    requires WellNamed(Dir(entries)) && !Excluded(ex, path) && m <= |entries|
    requires l in AnalyzeEntries(ex, threshold, path, entries[..m]).layers
    ensures FromAnalysis(ex, threshold, path, Dir(entries), l)
    decreases entries, m
  {
    var n := m - 1;
    assert entries[..m][..n] == entries[..n];
    if l in AnalyzeEntries(ex, threshold, path, entries[..n]).layers {
      LayersFromAnalysis(ex, threshold, path, entries, n, l);
    } else {
      var child, below := path + [entries[n].name], entries[n].node.entries;
      RootsBelow(ex, threshold, child, below);
      if l in AnalyzeEntries(ex, threshold, child, below).layers {
        assert below[..|below|] == below;
        LayersFromAnalysis(ex, threshold, child, below, |below|, l);
      }
      FromChild(ex, threshold, path, entries, n, l);
    }
  }

  // ----- Each entry belongs to the nearest layer ------------------------------------------

  lemma {:induction false} WalkSubset(ex: Path -> bool, stop: set<Path>, top: Path, path: Path, node: Node, q: Item)
    requires q in Walk(ex, stop, top, path, node)
    ensures q in Everything(ex, path, node)
    decreases node
  {
    if node.Dir? && q in WalkEntries(ex, stop, top, path, node.entries) {
      var k := EntriesBelow(ex, stop, top, path, node.entries, q);
      WalkSubset(ex, stop, top, path + [node.entries[k].name], node.entries[k].node, q);
      ChildIn(ex, {}, [], path, node.entries, k, q);
    }
  }

  /** Layer `i` is rooted at the nearest layer directory at or above `p`. */
  ghost predicate Nearest(layers: seq<Layer>, i: nat, p: Path)
    requires i < |layers|
  {
    layers[i].root <= p && forall j :: 0 <= j < |layers| && layers[j].root <= p ==> layers[j].root <= layers[i].root
  }

  lemma Comparable(a: Path, b: Path, p: Path)
    requires a <= p && b <= p
    ensures a <= b || b < a
  {
    if |a| <= |b| {
      assert a == b[..|a|];
    } else {
      assert b == a[..|b|];
    }
  }

  lemma UnblockedIsNearest(layers: seq<Layer>, i: nat, p: Path, j: nat)
    requires i < |layers| && SkipsBelow(layers, layers[i]) && layers[i].root <= p
    requires forall s :: s in layers[i].skip ==> !(s <= p)
    requires j < |layers| && layers[j].root <= p
    ensures layers[j].root <= layers[i].root
  {
    var l := layers[i];
    Comparable(layers[j].root, l.root, p);
  }

  lemma NearestIsUnblocked(layers: seq<Layer>, i: nat, p: Path, s: Path)
    requires i < |layers| && SkipsBelow(layers, layers[i]) && Nearest(layers, i, p) && s in layers[i].skip
    ensures !(s <= p)
  {
    assert IsRoot(layers, s);
    var j :| 0 <= j < |layers| && layers[j].root == s;
  }

  lemma UnblockedIffNearest(layers: seq<Layer>, i: nat, p: Path)
    requires i < |layers| && Split(layers) && layers[i].root <= p
    ensures Unblocked(Paths(layers[i].skip), layers[i].root, layers[i].root, p) <==> Nearest(layers, i, p)
  {
    assert SkipsBelow(layers, layers[i]);
    if Unblocked(Paths(layers[i].skip), layers[i].root, layers[i].root, p) {
      forall s | s in layers[i].skip ensures !(s <= p) {
        assert s in Paths(layers[i].skip);
      }
      forall j | 0 <= j < |layers| && layers[j].root <= p ensures layers[j].root <= layers[i].root {
        UnblockedIsNearest(layers, i, p, j);
      }
    }
    if Nearest(layers, i, p) {
      forall s | s in layers[i].skip ensures !(s <= p) {
        NearestIsUnblocked(layers, i, p, s);
      }
    }
  }

  lemma LayeringSplits(ex: Path -> bool, threshold: int, entries: seq<Entry>)
    requires WellNamed(Dir(entries))
    ensures Split(AllLayers(ex, threshold, entries))
  {
    AnalysisSplits(ex, Effective(threshold), [], entries);
    RootsBelow(ex, Effective(threshold), [], entries);
    CloseSplits(AnalyzeEntries(ex, Effective(threshold), [], entries), []);
  }

  lemma LayerReaches(ex: Path -> bool, threshold: int, entries: seq<Entry>, l: Layer)
    requires WellNamed(Dir(entries)) && l in AllLayers(ex, threshold, entries)
    ensures Reaches(ex, [], Dir(entries), l.root) && At([], Dir(entries), l.root).Some?
    ensures At([], Dir(entries), l.root).value.Dir?
    ensures l.root != [] ==> l.size >= Effective(threshold)
  {
    var a := AnalyzeEntries(ex, Effective(threshold), [], entries);
    if l in a.layers {
      assert entries[..|entries|] == entries;
      LayersFromAnalysis(ex, Effective(threshold), [], entries, |entries|, l);
    }
  }

  lemma RootIsDirectory(ex: Path -> bool, threshold: int, entries: seq<Entry>, q: Item)
    requires WellNamed(Dir(entries)) && q in Everything(ex, [], Dir(entries))
    requires IsRoot(AllLayers(ex, threshold, entries), q.path)
    ensures q.kind == Directory
  {
    var layers := AllLayers(ex, threshold, entries);
    var i :| 0 <= i < |layers| && layers[i].root == q.path;
    LayerReaches(ex, threshold, entries, layers[i]);
    SubtreeMember(ex, [], Dir(entries), q.path, q);
    ItemsBelow(ex, {}, [], q.path, At([], Dir(entries), q.path).value, q);
  }

  /** A layer meets exactly the entries that are not excluded and whose nearest layer
      directory is its own root. */
  lemma MetIffNearest(ex: Path -> bool, threshold: int, entries: seq<Entry>, i: nat, q: Item)
    requires WellNamed(Dir(entries)) && i < |AllLayers(ex, threshold, entries)|
    ensures var layers := AllLayers(ex, threshold, entries);
      q in Met(ex, Dir(entries), layers[i]) <==> q in Everything(ex, [], Dir(entries)) && Nearest(layers, i, q.path)
  {
    var layers, tree := AllLayers(ex, threshold, entries), Dir(entries);
    var l := layers[i];
    LayerReaches(ex, threshold, entries, l);
    LayeringSplits(ex, threshold, entries);
    var node := At([], tree, l.root).value;
    AtWellNamed([], tree, l.root);
    SubtreeMember(ex, [], tree, l.root, q);
    if q in Met(ex, tree, l) {
      WalkSubset(ex, Paths(l.skip), l.root, l.root, node, q);
    }
    if q in Everything(ex, [], tree) {
      assert SkipsBelow(layers, l);
      if q.path in l.skip {
        RootIsDirectory(ex, threshold, entries, q);
      }
      WalkMember(ex, Paths(l.skip), l.root, l.root, node, q);
      if l.root <= q.path {
        UnblockedIffNearest(layers, i, q.path);
      }
    }
  }

  lemma {:induction false} AtWellNamed(path: Path, node: Node, target: Path)
    requires WellNamed(node) && At(path, node, target).Some?
    ensures WellNamed(At(path, node, target).value)
    decreases |target| - |path|
  {
    if target != path {
      var k := IndexOf(node.entries, target[|path|]);
      AtWellNamed(path + [target[|path|]], node.entries[k].node, target);
    }
  }
}
