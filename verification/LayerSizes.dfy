/** The sizes recorded with the layers: each is the bytes its own walk meets, and together
    they are the bytes of the tree. */
module LayerSizes {
  import opened Layers
  import opened LayerPartition
  import opened LayerTheorems

  function Bytes(items: seq<Item>): nat
  {
    if items == [] then 0 else Bytes(items[..|items| - 1]) + items[|items| - 1].size
  }

  function SumSizes(layers: seq<Layer>): nat
  {
    if layers == [] then 0 else SumSizes(layers[..|layers| - 1]) + layers[|layers| - 1].size
  }

  lemma {:induction false} BytesAppend(a: seq<Item>, b: seq<Item>)
    ensures Bytes(a + b) == Bytes(a) + Bytes(b)
    decreases |b|
  {
    if b == [] {
      assert a + b == a;
    } else {
      var n := |b| - 1;
      BytesAppend(a, b[..n]);
      assert (a + b)[..|a + b| - 1] == a + b[..n];
    }
  }

  lemma {:induction false} SumSizesAppend(a: seq<Layer>, b: seq<Layer>)
    ensures SumSizes(a + b) == SumSizes(a) + SumSizes(b)
    decreases |b|
  {
    if b == [] {
      assert a + b == a;
    } else {
      var n := |b| - 1;
      SumSizesAppend(a, b[..n]);
      assert (a + b)[..|a + b| - 1] == a + b[..n];
    }
  }

  // ----- Walks depend only on the stops below them ----------------------------------------

  predicate Blocks(stop: set<Path>, top: Path, r: Path)
  {
    r in stop && r != top
  }

  /** Both stop sets agree on everything below `path`. */
  ghost predicate SameBelow(stop: set<Path>, top: Path, stop': set<Path>, top': Path, path: Path)
  {
    forall r :: path <= r ==> Blocks(stop, top, r) == Blocks(stop', top', r)
  }

  ghost predicate SameBelowEntries(stop: set<Path>, top: Path, stop': set<Path>, top': Path, path: Path,
          entries: seq<Entry>)
  {
    forall k :: 0 <= k < |entries| ==> SameBelow(stop, top, stop', top', path + [entries[k].name])
  }

  lemma {:induction false} WalkLocal(ex: Path -> bool, stop: set<Path>, top: Path, stop': set<Path>, top': Path,
          path: Path, node: Node)
    requires SameBelow(stop, top, stop', top', path)
    ensures Walk(ex, stop, top, path, node) == Walk(ex, stop', top', path, node)
    decreases node, 1
  {
    assert Blocks(stop, top, path) == Blocks(stop', top', path);
    if node.Dir? {
      EntriesLocal(ex, stop, top, stop', top', path, node.entries);
    }
  }

  lemma {:induction false} EntriesLocal(ex: Path -> bool, stop: set<Path>, top: Path, stop': set<Path>, top': Path,
          path: Path, entries: seq<Entry>)
    requires SameBelowEntries(stop, top, stop', top', path, entries)
    ensures WalkEntries(ex, stop, top, path, entries) == WalkEntries(ex, stop', top', path, entries)
    decreases entries, 0
  {
    if entries != [] {
      var n := |entries| - 1;
      EntriesLocal(ex, stop, top, stop', top', path, entries[..n]);
      WalkLocal(ex, stop, top, stop', top', path + [entries[n].name], entries[n].node);
    }
  }

  // ----- A layer's size is what its walk meets ----------------------------------------------

  /** Stops below one sibling do not matter to the others. */
  lemma SiblingStops(path: Path, entries: seq<Entry>, n: nat, a: seq<Path>, c: seq<Path>)
    requires WellNamed(Dir(entries)) && n < |entries|
    requires forall s :: s in c ==> path + [entries[n].name] <= s
    ensures SameBelowEntries(Paths(a + c), path, Paths(a), path, path, entries[..n])
  {
    forall k | 0 <= k < n ensures SameBelow(Paths(a + c), path, Paths(a), path, path + [entries[k].name]) {
      forall r | path + [entries[k].name] <= r ensures Blocks(Paths(a + c), path, r) == Blocks(Paths(a), path, r) {
        assert r[|path|] == entries[k].name;
      }
    }
  }

  lemma ChildStops(ex: Path -> bool, threshold: int, path: Path, entries: seq<Entry>, n: nat, a: seq<Path>,
          c: seq<Path>)
    requires WellNamed(Dir(entries)) && n < |entries|
    requires forall s :: s in a ==> exists k :: 0 <= k < n && path + [entries[k].name] <= s
    ensures SameBelow(Paths(a + c), path, Paths(c), path + [entries[n].name], path + [entries[n].name])
            || path + [entries[n].name] in c
  {
    var child := path + [entries[n].name];
    forall r | child <= r ensures Blocks(Paths(a + c), path, r) == Blocks(Paths(c), child, r) || child in c {
      assert r[|path|] == entries[n].name;
    }
  }

  lemma {:induction false} SkipsUnderEntries(ex: Path -> bool, threshold: int, path: Path, entries: seq<Entry>, s: Path)
    returns (k: nat)
    requires s in AnalyzeEntries(ex, threshold, path, entries).skip
    ensures k < |entries| && path + [entries[k].name] <= s
    decreases |entries|
  {
    var n := |entries| - 1;
    if s in AnalyzeEntries(ex, threshold, path, entries[..n]).skip {
      k := SkipsUnderEntries(ex, threshold, path, entries[..n], s);
    } else {
      k := n;
      var child, below := path + [entries[n].name], entries[n].node.entries;
      RootsBelow(ex, threshold, child, below);
      assert s in Child(ex, threshold, child, below).skip;
      assert s == child || s in AnalyzeEntries(ex, threshold, child, below).skip;
    }
  }

  /** What a directory still has to place is what a walk outside its layers meets. */
  lemma {:induction false} SizeIsMet(ex: Path -> bool, threshold: int, path: Path, entries: seq<Entry>)
    requires WellNamed(Dir(entries))
    ensures var a := AnalyzeEntries(ex, threshold, path, entries);
      a.size == Bytes(WalkEntries(ex, Paths(a.skip), path, path, entries))
    decreases entries
  {
    if entries != [] {
      var n := |entries| - 1;
      var a := AnalyzeEntries(ex, threshold, path, entries[..n]);
      SizeIsMet(ex, threshold, path, entries[..n]);
      var child, node := path + [entries[n].name], entries[n].node;
      var c: seq<Path> := [];
      if node.Dir? && !ex(child) {
        SizeIsMet(ex, threshold, child, node.entries);
        RootsBelow(ex, threshold, child, node.entries);
        c := Child(ex, threshold, child, node.entries).skip;
      }
      SiblingStops(path, entries, n, a.skip, c);
      EntriesLocal(ex, Paths(a.skip + c), path, Paths(a.skip), path, path, entries[..n]);
      BytesAppend(WalkEntries(ex, Paths(a.skip + c), path, path, entries[..n]), Walk(ex, Paths(a.skip + c), path,
        child, node));
      if node.Dir? && !ex(child) {
        ChildSize(ex, threshold, path, entries, n);
      } else {
        assert a.skip + c == a.skip;
      }
    }
  }

  lemma ChildSize(ex: Path -> bool, threshold: int, path: Path, entries: seq<Entry>, n: nat)
    requires WellNamed(Dir(entries)) && n < |entries| && entries[n].node.Dir? && !ex(path + [entries[n].name])
    requires var child, below := path + [entries[n].name], entries[n].node.entries;
      var b := AnalyzeEntries(ex, threshold, child, below);
      b.size == Bytes(WalkEntries(ex, Paths(b.skip), child, child, below))
    ensures var child, below := path + [entries[n].name], entries[n].node.entries;
      var a, c := AnalyzeEntries(ex, threshold, path, entries[..n]), Child(ex, threshold, child, below);
      c.size == Bytes(Walk(ex, Paths(a.skip + c.skip), path, child, entries[n].node))
  {
    var child, below := path + [entries[n].name], entries[n].node.entries;
    var a, b := AnalyzeEntries(ex, threshold, path, entries[..n]), AnalyzeEntries(ex, threshold, child, below);
    if b.size >= threshold {
      assert child in a.skip + [child];
    } else {
      forall s | s in a.skip ensures exists k :: 0 <= k < n && path + [entries[k].name] <= s {
        var k := SkipsUnderEntries(ex, threshold, path, entries[..n], s);
        assert entries[..n][k] == entries[k];
      }
      RootsBelow(ex, threshold, child, below);
      ChildStops(ex, threshold, path, entries, n, a.skip, b.skip);
      WalkLocal(ex, Paths(a.skip + b.skip), path, Paths(b.skip), child, child, entries[n].node);
      BytesAppend([Item(child, Directory, 0)], WalkEntries(ex, Paths(b.skip), child, child, below));
    }
  }

  /** The size recorded with a layer is the number of bytes its walk meets. */
  lemma LayerSizeIsMet(ex: Path -> bool, threshold: int, entries: seq<Entry>, l: Layer)
    requires WellNamed(Dir(entries)) && l in Image(ex, threshold, entries)
    ensures l.size == Bytes(Met(ex, Dir(entries), l))
  {
    assert l in AllLayers(ex, threshold, entries);
    var t := Effective(threshold);
    var below := entries;
    if l in AnalyzeEntries(ex, t, [], entries).layers {
      assert entries[..|entries|] == entries;
      LayersFromAnalysis(ex, t, [], entries, |entries|, l);
      AtWellNamed([], Dir(entries), l.root);
      below := At([], Dir(entries), l.root).value.entries;
    }
    SizeIsMet(ex, t, l.root, below);
    ReachesNotExcluded(ex, threshold, entries, l);
    BytesAppend([Item(l.root, Directory, 0)], WalkEntries(ex, Paths(l.skip), l.root, l.root, below));
  }

  lemma ReachesNotExcluded(ex: Path -> bool, threshold: int, entries: seq<Entry>, l: Layer)
    requires WellNamed(Dir(entries)) && l in AllLayers(ex, threshold, entries)
    ensures !Excluded(ex, l.root)
  {
    LayerReaches(ex, threshold, entries, l);
    ReachesAbove(ex, [], Dir(entries), l.root, l.root);
    SubtreeMember(ex, [], Dir(entries), l.root, Item(l.root, Directory, 0));
    ItemsBelow(ex, {}, [], l.root, At([], Dir(entries), l.root).value, Item(l.root, Directory, 0));
  }

  // ----- Conservation -------------------------------------------------------------------------

  lemma {:induction false} AnalysisConserves(ex: Path -> bool, threshold: int, path: Path, entries: seq<Entry>)
    ensures var a := AnalyzeEntries(ex, threshold, path, entries);
      SumSizes(a.layers) + a.size == Bytes(WalkEntries(ex, {}, [], path, entries))
    decreases entries
  {
    if entries != [] {
      var n := |entries| - 1;
      var a := AnalyzeEntries(ex, threshold, path, entries[..n]);
      AnalysisConserves(ex, threshold, path, entries[..n]);
      var child, node := path + [entries[n].name], entries[n].node;
      BytesAppend(WalkEntries(ex, {}, [], path, entries[..n]), Walk(ex, {}, [], child, node));
      if node.Dir? && !ex(child) {
        var b := AnalyzeEntries(ex, threshold, child, node.entries);
        var c := Child(ex, threshold, child, node.entries);
        AnalysisConserves(ex, threshold, child, node.entries);
        SumSizesAppend(b.layers, [Layer(child, b.skip, b.size)]);
        SumSizesAppend(a.layers, c.layers);
        BytesAppend([Item(child, Directory, 0)], WalkEntries(ex, {}, [], child, node.entries));
      }
    }
  }

  lemma {:induction false} SumSizesReversed(layers: seq<Layer>)
    ensures SumSizes(Reverse(layers)) == SumSizes(layers)
    decreases |layers|
  {
    if layers != [] {
      var n := |layers| - 1;
      SumSizesReversed(layers[..n]);
      assert Reverse(layers) == [layers[n]] + Reverse(layers[..n]);
      SumSizesAppend([layers[n]], Reverse(layers[..n]));
    }
  }

  /** No byte is lost or counted twice: the sizes add up to those of a list that holds every
      entry that is not excluded exactly once. */
  lemma SizesConserved(ex: Path -> bool, threshold: int, entries: seq<Entry>)
    ensures SumSizes(Image(ex, threshold, entries)) == Bytes(Everything(ex, [], Dir(entries)))
    ensures WellNamed(Dir(entries)) ==>
      && Distinct(Everything(ex, [], Dir(entries)))
      && forall q :: q in Everything(ex, [], Dir(entries)) <==> IsEntry(ex, [], Dir(entries), q)
  {
    if WellNamed(Dir(entries)) {
      forall q ensures q in Everything(ex, [], Dir(entries)) <==> IsEntry(ex, [], Dir(entries), q) {
        EverythingIsEntries(ex, [], Dir(entries), q);
      }
      WalkDistinct(ex, {}, [], [], Dir(entries));
    }
    var t := Effective(threshold);
    var a := AnalyzeEntries(ex, t, [], entries);
    AnalysisConserves(ex, t, [], entries);
    SumSizesAppend(a.layers, [Layer([], a.skip, a.size)]);
    SumSizesReversed(AllLayers(ex, threshold, entries));
    BytesAppend([Item([], Directory, 0)], WalkEntries(ex, {}, [], [], entries));
  }

  /** Every layer but the base layer reaches the threshold. */
  lemma ThresholdReached(ex: Path -> bool, threshold: int, entries: seq<Entry>, i: nat)
    requires WellNamed(Dir(entries)) && 0 < i < |Image(ex, threshold, entries)|
    ensures Image(ex, threshold, entries)[i].size >= Effective(threshold)
  {
    var l := Image(ex, threshold, entries)[i];
    assert l in AllLayers(ex, threshold, entries);
    TopDown(ex, threshold, entries);
    LayerReaches(ex, threshold, entries, l);
  }
}
