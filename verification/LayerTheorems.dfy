/** What holds of the layers in the order in which an image lists them. */
module LayerTheorems {
  import opened Layers
  import opened LayerPartition

  /** The layers of an image, base layer first. */
  function Image(ex: Path -> bool, threshold: int, entries: seq<Entry>): seq<Layer>
  {
    Reverse(AllLayers(ex, threshold, entries))
  }

  lemma {:induction false} EmitMember(items: seq<Item>, q: Item)
    ensures q in Emit(items) <==> q in items && q.kind != Special
    decreases |items|
  {
    if items != [] {
      var n := |items| - 1;
      EmitMember(items[..n], q);
      assert items == items[..n] + [items[n]];
    }
  }

  lemma NearestReversed(layers: seq<Layer>, i: nat, p: Path)
    requires i < |layers|
    ensures Nearest(Reverse(layers), i, p) <==> Nearest(layers, |layers| - 1 - i, p)
  {
    var rev := Reverse(layers);
    assert forall j :: 0 <= j < |layers| ==> rev[j] == layers[|layers| - 1 - j];
    assert forall j :: 0 <= j < |layers| ==> layers[j] == rev[|layers| - 1 - j];
  }

  /** A layer streams exactly the entries that are not excluded, can be archived, and
      have its root as their nearest layer directory. */
  lemma StreamedIffNearest(ex: Path -> bool, threshold: int, entries: seq<Entry>, i: nat, q: Item)
    requires WellNamed(Dir(entries)) && i < |Image(ex, threshold, entries)|
    ensures var image := Image(ex, threshold, entries);
      q in Streamed(ex, Dir(entries), image[i]) <==>
      IsEntry(ex, [], Dir(entries), q) && q.kind != Special && Nearest(image, i, q.path)
  {
    EverythingIsEntries(ex, [], Dir(entries), q);
    var layers := AllLayers(ex, threshold, entries);
    EmitMember(Met(ex, Dir(entries), Reverse(layers)[i]), q);
    MetIffNearest(ex, threshold, entries, |layers| - 1 - i, q);
    NearestReversed(layers, i, q.path);
  }

  /** No layer streams an entry that is excluded or lies below an excluded directory. */
  lemma NothingExcludedIsStreamed(ex: Path -> bool, threshold: int, entries: seq<Entry>, i: nat, q: Item, k: nat)
    requires WellNamed(Dir(entries)) && i < |Image(ex, threshold, entries)|
    requires q in Streamed(ex, Dir(entries), Image(ex, threshold, entries)[i]) && 0 < k <= |q.path|
    ensures !ex(q.path[..k])
  {
    StreamedIffNearest(ex, threshold, entries, i, q);
    assert !Excluded(ex, q.path[..k]);
  }

  lemma RootsReversed(layers: seq<Layer>, s: Path)
    ensures IsRoot(Reverse(layers), s) <==> IsRoot(layers, s)
  {
    var rev := Reverse(layers);
    if i :| 0 <= i < |layers| && layers[i].root == s {
      assert rev[|layers| - 1 - i].root == s;
    }
  }

  /** Every layer of an image skips exactly the topmost layer roots strictly below its own. */
  lemma ImageSkipsTopmost(ex: Path -> bool, threshold: int, entries: seq<Entry>, i: nat)
    requires WellNamed(Dir(entries)) && i < |Image(ex, threshold, entries)|
    ensures SkipsTopmost(Image(ex, threshold, entries), Image(ex, threshold, entries)[i])
  {
    var layers := AllLayers(ex, threshold, entries);
    var l := layers[|layers| - 1 - i];
    LayeringSplits(ex, threshold, entries);
    SkipsBelowIsTopmost(layers, l);
    forall s ensures IsRoot(layers, s) <==> IsRoot(Reverse(layers), s) {
      RootsReversed(layers, s);
    }
    SameRoots(layers, Reverse(layers), l);
  }

  lemma SameRoots(layers: seq<Layer>, layers': seq<Layer>, l: Layer)
    requires SkipsTopmost(layers, l) && forall s :: IsRoot(layers, s) <==> IsRoot(layers', s)
    ensures SkipsTopmost(layers', l)
  {
    forall s ensures IsTopBelow(layers, l.root, s) <==> IsTopBelow(layers', l.root, s) {
    }
  }

  /** The base layer is rooted at the root, ancestors come before descendants, and no
      directory is the root of two layers. */
  lemma TopDown(ex: Path -> bool, threshold: int, entries: seq<Entry>)
    requires WellNamed(Dir(entries))
    ensures var image := Image(ex, threshold, entries);
      && |image| > 0 && image[0].root == []
      && forall i, j :: 0 <= i < j < |image| ==> !(image[j].root <= image[i].root)
  {
    LayeringSplits(ex, threshold, entries);
    var layers := AllLayers(ex, threshold, entries);
    assert BottomUp(layers);
  }

  lemma NearestExists(layers: seq<Layer>, p: Path) returns (best: nat)
    requires layers != [] && layers[0].root == []
    ensures best < |layers| && Nearest(layers, best, p)
  {
    best := 0;
    for n := 1 to |layers|
      invariant best < n && layers[best].root <= p
      invariant forall j :: 0 <= j < n && layers[j].root <= p ==> layers[j].root <= layers[best].root
    {
      if layers[n].root <= p {
        Comparable(layers[n].root, layers[best].root, p);
        if layers[best].root < layers[n].root {
          best := n;
        }
      }
    }
  }

  /** The layers partition the tree: an entry that is not excluded and can be archived is
      streamed by one layer and by no other. */
  lemma ExactlyOneLayer(ex: Path -> bool, threshold: int, entries: seq<Entry>, q: Item) returns (i: nat)
    requires WellNamed(Dir(entries)) && IsEntry(ex, [], Dir(entries), q) && q.kind != Special
    ensures var image := Image(ex, threshold, entries);
      && i < |image| && q in Streamed(ex, Dir(entries), image[i])
      && forall j :: 0 <= j < |image| && j != i ==> q !in Streamed(ex, Dir(entries), image[j])
  {
    var image := Image(ex, threshold, entries);
    TopDown(ex, threshold, entries);
    i := NearestExists(image, q.path);
    StreamedIffNearest(ex, threshold, entries, i, q);
    forall j | 0 <= j < |image| && j != i ensures q !in Streamed(ex, Dir(entries), image[j]) {
      StreamedIffNearest(ex, threshold, entries, j, q);
    }
  }

  // ----- No entry twice ------------------------------------------------------------------

  ghost predicate Distinct(items: seq<Item>)
  {
    forall i, j :: 0 <= i < j < |items| ==> items[i].path != items[j].path
  }

  lemma {:induction false} WalkDistinct(ex: Path -> bool, stop: set<Path>, top: Path, path: Path, node: Node)
    requires WellNamed(node)
    ensures Distinct(Walk(ex, stop, top, path, node))
    decreases node, 1, 0
  {
    if node.Dir? {
      WalkEntriesDistinct(ex, stop, top, path, node, |node.entries|);
      var below := WalkEntries(ex, stop, top, path, node.entries);
      assert node.entries[..|node.entries|] == node.entries;
      forall i | 0 <= i < |below| ensures below[i].path != path {
        var _ := EntriesBelow(ex, stop, top, path, node.entries, below[i]);
      }
    }
  }

  lemma {:induction false} WalkEntriesDistinct(ex: Path -> bool, stop: set<Path>, top: Path, path: Path, dir: Node,
          n: nat)
    requires WellNamed(dir) && dir.Dir? && n <= |dir.entries|
    ensures Distinct(WalkEntries(ex, stop, top, path, dir.entries[..n]))
    decreases dir, 0, n
  {
    if n > 0 {
      var entries := dir.entries[..n - 1];
      assert dir.entries[..n][..n - 1] == entries;
      var last := dir.entries[n - 1];
      WalkEntriesDistinct(ex, stop, top, path, dir, n - 1);
      WalkDistinct(ex, stop, top, path + [last.name], last.node);
      var a, b := WalkEntries(ex, stop, top, path, entries), Walk(ex, stop, top, path + [last.name], last.node);
      forall i, j | 0 <= i < |a| && 0 <= j < |b| ensures a[i].path != b[j].path {
        var k := EntriesBelow(ex, stop, top, path, entries, a[i]);
        ItemsBelow(ex, stop, top, path + [last.name], last.node, b[j]);
        assert a[i].path[|path|] == dir.entries[k].name && b[j].path[|path|] == last.name;
      }
    }
  }

  lemma {:induction false} EmitDistinct(items: seq<Item>)
    requires Distinct(items)
    ensures Distinct(Emit(items))
    decreases |items|
  {
    if items != [] {
      var n := |items| - 1;
      EmitDistinct(items[..n]);
      forall i | 0 <= i < |Emit(items[..n])| ensures Emit(items[..n])[i].path != items[n].path {
        EmitMember(items[..n], Emit(items[..n])[i]);
      }
    }
  }

  /** No layer streams an entry twice. */
  lemma StreamedOnce(ex: Path -> bool, threshold: int, entries: seq<Entry>, i: nat)
    requires WellNamed(Dir(entries)) && i < |Image(ex, threshold, entries)|
    ensures Distinct(Streamed(ex, Dir(entries), Image(ex, threshold, entries)[i]))
  {
    var l := Image(ex, threshold, entries)[i];
    assert l in AllLayers(ex, threshold, entries);
    LayerReaches(ex, threshold, entries, l);
    AtWellNamed([], Dir(entries), l.root);
    WalkDistinct(ex, Paths(l.skip), l.root, l.root, At([], Dir(entries), l.root).value);
    EmitDistinct(Met(ex, Dir(entries), l));
  }

  // ----- Parents first ---------------------------------------------------------------------

  function Parent(p: Path): Path
    requires p != []
  {
    p[..|p| - 1]
  }

  /** Before an entry other than those at `top`, its parent directory has been met. */
  ghost predicate ParentFirst(items: seq<Item>, top: Path, k: nat)
    requires k < |items|
  {
    items[k].path == top || (items[k].path != [] && Item(Parent(items[k].path), Directory, 0) in items[..k])
  }

  lemma {:induction false} WalkParents(ex: Path -> bool, stop: set<Path>, top: Path, path: Path, node: Node, k: nat)
    requires k < |Walk(ex, stop, top, path, node)|
    ensures ParentFirst(Walk(ex, stop, top, path, node), path, k)
    decreases node, 1
  {
    if k > 0 {
      var here := [Item(path, Directory, 0)];
      var below := WalkEntries(ex, stop, top, path, node.entries);
      EntriesParents(ex, stop, top, path, node.entries, k - 1);
      assert (here + below)[..k] == here + below[..k - 1];
    }
  }

  lemma {:induction false} EntriesParents(ex: Path -> bool, stop: set<Path>, top: Path, path: Path,
          entries: seq<Entry>, k: nat)
    requires k < |WalkEntries(ex, stop, top, path, entries)|
    ensures var items := WalkEntries(ex, stop, top, path, entries);
      items[k].path != [] && (Parent(items[k].path) == path || Item(Parent(items[k].path), Directory, 0) in items[..k])
    decreases entries, 0
  {
    var n := |entries| - 1;
    var a := WalkEntries(ex, stop, top, path, entries[..n]);
    var child := path + [entries[n].name];
    var b := Walk(ex, stop, top, child, entries[n].node);
    if k < |a| {
      EntriesParents(ex, stop, top, path, entries[..n], k);
      assert (a + b)[..k] == a[..k];
    } else {
      WalkParents(ex, stop, top, child, entries[n].node, k - |a|);
      assert (a + b)[..k] == a + b[..k - |a|];
      assert Parent(child) == path;
    }
  }

  lemma {:induction false} EmitKeepsOrder(items: seq<Item>, k: nat) returns (m: nat)
    requires k < |Emit(items)|
    ensures m < |items| && items[m] == Emit(items)[k]
    ensures forall d :: d in items[..m] && d.kind != Special ==> d in Emit(items)[..k]
    decreases |items|
  {
    var n := |items| - 1;
    var front := Emit(items[..n]);
    if k < |front| {
      m := EmitKeepsOrder(items[..n], k);
      assert items[..n][..m] == items[..m] && Emit(items)[..k] == front[..k];
    } else {
      m := n;
      assert Emit(items)[..k] == front;
      forall d | d in items[..n] && d.kind != Special ensures d in front {
        EmitMember(items[..n], d);
      }
    }
  }

  /** Every directory above one that is reached is reached, and met. */
  lemma {:induction false} ReachesAbove(ex: Path -> bool, path: Path, node: Node, target: Path, p: Path)
    requires Reaches(ex, path, node, target) && path <= p <= target
    ensures Item(p, Directory, 0) in Everything(ex, path, node)
    decreases |target| - |path|
  {
    if p != path {
      var k := IndexOf(node.entries, target[|path|]);
      assert p[|path|] == target[|path|];
      ReachesAbove(ex, path + [target[|path|]], node.entries[k].node, target, p);
      ChildIn(ex, {}, [], path, node.entries, k, Item(p, Directory, 0));
    }
  }

  /** Unpacking the layers in order always finds the parent directory of an entry: it was
      streamed earlier by the same layer, or by an earlier layer. */
  lemma ParentsComeFirst(ex: Path -> bool, threshold: int, entries: seq<Entry>, i: nat, k: nat)
    requires WellNamed(Dir(entries)) && i < |Image(ex, threshold, entries)|
    requires k < |Streamed(ex, Dir(entries), Image(ex, threshold, entries)[i])|
    ensures var image := Image(ex, threshold, entries);
      var items := Streamed(ex, Dir(entries), image[i]);
      || items[k].path == []
      || Item(Parent(items[k].path), Directory, 0) in items[..k]
      || exists j :: 0 <= j < i && Item(Parent(items[k].path), Directory, 0) in Streamed(ex, Dir(entries), image[j])
  {
    var image := Image(ex, threshold, entries);
    var l := image[i];
    assert l in AllLayers(ex, threshold, entries);
    LayerReaches(ex, threshold, entries, l);
    var met := Met(ex, Dir(entries), l);
    var m := EmitKeepsOrder(met, k);
    WalkParents(ex, Paths(l.skip), l.root, l.root, At([], Dir(entries), l.root).value, m);
    if met[m].path == l.root && l.root != [] {
      var j := ParentLayer(ex, threshold, entries, i);
    }
  }

  /** The parent directory of a layer's root is streamed by an earlier layer. */
  lemma ParentLayer(ex: Path -> bool, threshold: int, entries: seq<Entry>, i: nat) returns (j: nat)
    requires WellNamed(Dir(entries)) && i < |Image(ex, threshold, entries)| &&
        Image(ex, threshold, entries)[i].root != []
    ensures var image := Image(ex, threshold, entries);
      j < i && Item(Parent(image[i].root), Directory, 0) in Streamed(ex, Dir(entries), image[j])
  {
    var image := Image(ex, threshold, entries);
    var root := image[i].root;
    assert image[i] in AllLayers(ex, threshold, entries);
    LayerReaches(ex, threshold, entries, image[i]);
    var q := Item(Parent(root), Directory, 0);
    ReachesAbove(ex, [], Dir(entries), root, Parent(root));
    EverythingIsEntries(ex, [], Dir(entries), q);
    j := ExactlyOneLayer(ex, threshold, entries, q);
    StreamedIffNearest(ex, threshold, entries, j, q);
    TopDown(ex, threshold, entries);
    assert image[j].root <= root;
  }
}
