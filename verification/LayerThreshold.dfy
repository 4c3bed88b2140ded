/** How the threshold decides which directories become layers: those that reach it do, and
    no other. */
module LayerThreshold {
  import opened Layers
  import opened LayerPartition
  import opened LayerTheorems
  import opened LayerSizes

  /** The items at or below `d`. */
  function Under(items: seq<Item>, d: Path): seq<Item>
  {
    if items == [] then []
    else
      var n := |items| - 1;
      Under(items[..n], d) + (if d <= items[n].path then [items[n]] else [])
  }

  lemma {:induction false} UnderAppend(a: seq<Item>, b: seq<Item>, d: Path)
    ensures Under(a + b, d) == Under(a, d) + Under(b, d)
    decreases |b|
  {
    if b == [] {
      assert a + b == a && Under(a, d) + [] == Under(a, d);
    } else {
      var n := |b| - 1;
      UnderAppend(a, b[..n], d);
      assert (a + b)[..|a + b| - 1] == a + b[..n];
    }
  }

  lemma {:induction false} UnderNone(items: seq<Item>, d: Path)
    requires forall i :: 0 <= i < |items| ==> !(d <= items[i].path)
    ensures Under(items, d) == []
    decreases |items|
  {
    if items != [] {
      UnderNone(items[..|items| - 1], d);
    }
  }

  lemma {:induction false} UnderAll(items: seq<Item>, d: Path)
    requires forall i :: 0 <= i < |items| ==> d <= items[i].path
    ensures Under(items, d) == items
    decreases |items|
  {
    if items != [] {
      UnderAll(items[..|items| - 1], d);
    }
  }

  /** Everything the walk over `entries` meets at or below `d`, which lies below entry `k`,
      it meets below that entry. */
  lemma UnderSiblings(ex: Path -> bool, stop: set<Path>, top: Path, path: Path, entries: seq<Entry>, d: Path,
          name: string)
    requires path + [name] <= d && forall k :: 0 <= k < |entries| ==> entries[k].name != name
    ensures Under(WalkEntries(ex, stop, top, path, entries), d) == []
  {
    var items := WalkEntries(ex, stop, top, path, entries);
    forall i | 0 <= i < |items| ensures !(d <= items[i].path) {
      var k := EntriesBelow(ex, stop, top, path, entries, items[i]);
      assert d[|path|] == name;
    }
    UnderNone(items, d);
  }

  lemma UnderOther(ex: Path -> bool, stop: set<Path>, top: Path, child: Path, node: Node, d: Path)
    requires |child| > 0 && |d| >= |child| && d[|child| - 1] != child[|child| - 1]
    ensures Under(Walk(ex, stop, top, child, node), d) == []
  {
    var items := Walk(ex, stop, top, child, node);
    forall i | 0 <= i < |items| ensures !(d <= items[i].path) {
      ItemsBelow(ex, stop, top, child, node, items[i]);
      assert items[i].path[|child| - 1] == child[|child| - 1];
    }
    UnderNone(items, d);
  }

  /** The walk of a directory that did not become a layer, with the stops found below it. */
  lemma OpenChild(ex: Path -> bool, threshold: int, path: Path, entries: seq<Entry>, n: nat)
    requires WellNamed(Dir(entries)) && n < |entries| && entries[n].node.Dir? && !ex(path + [entries[n].name])
    requires AnalyzeEntries(ex, threshold, path + [entries[n].name], entries[n].node.entries).size < threshold
    ensures var child, below := path + [entries[n].name], entries[n].node.entries;
      var a, b := AnalyzeEntries(ex, threshold, path, entries[..n]), AnalyzeEntries(ex, threshold, child, below);
      Walk(ex, Paths(a.skip + b.skip), path, child, entries[n].node) ==
        [Item(child, Directory, 0)] + WalkEntries(ex, Paths(b.skip), child, child, below)
  {
    var child, below := path + [entries[n].name], entries[n].node.entries;
    var a, b := AnalyzeEntries(ex, threshold, path, entries[..n]), AnalyzeEntries(ex, threshold, child, below);
    forall s | s in a.skip ensures exists k :: 0 <= k < n && path + [entries[k].name] <= s {
      var k := SkipsUnderEntries(ex, threshold, path, entries[..n], s);
      assert entries[..n][k] == entries[k];
    }
    RootsBelow(ex, threshold, child, below);
    ChildStops(ex, threshold, path, entries, n, a.skip, b.skip);
    WalkLocal(ex, Paths(a.skip + b.skip), path, Paths(b.skip), child, child, entries[n].node);
  }

  /** The layer roots the last entry adds to the skip list. */
  function LastSkip(ex: Path -> bool, threshold: int, path: Path, entries: seq<Entry>): seq<Path>
    requires entries != []
  {
    var child, node := path + [entries[|entries| - 1].name], entries[|entries| - 1].node;
    if node.Dir? && !ex(child) then Child(ex, threshold, child, node.entries).skip else []
  }

  lemma SkipSplits(ex: Path -> bool, threshold: int, path: Path, entries: seq<Entry>)
    requires entries != []
    ensures AnalyzeEntries(ex, threshold, path, entries).skip ==
            AnalyzeEntries(ex, threshold, path, entries[..|entries| - 1]).skip + LastSkip(ex, threshold, path, entries)
    ensures forall s :: s in LastSkip(ex, threshold, path, entries) ==> path + [entries[|entries| - 1].name] <= s
  {
    var child, node := path + [entries[|entries| - 1].name], entries[|entries| - 1].node;
    if node.Dir? && !ex(child) {
      RootsBelow(ex, threshold, child, node.entries);
      var b := AnalyzeEntries(ex, threshold, child, node.entries);
      var last := LastSkip(ex, threshold, path, entries);
      assert last == if b.size >= threshold then [child] else b.skip;
      forall s | s in last ensures child <= s {
        assert s == child || s in b.skip;
      }
    } else {
      var skip := AnalyzeEntries(ex, threshold, path, entries[..|entries| - 1]).skip;
      assert skip + [] == skip;
    }
  }

  /** What the walk outside the layers found below `path` meets, entry by entry. */
  lemma OpenWalk(ex: Path -> bool, threshold: int, path: Path, entries: seq<Entry>)
    requires WellNamed(Dir(entries)) && entries != []
    ensures var n := |entries| - 1;
      var a, all := AnalyzeEntries(ex, threshold, path, entries[..n]), AnalyzeEntries(ex, threshold, path, entries);
      WalkEntries(ex, Paths(all.skip), path, path, entries) ==
        WalkEntries(ex, Paths(a.skip), path, path, entries[..n])
        + Walk(ex, Paths(all.skip), path, path + [entries[n].name], entries[n].node)
  {
    var n := |entries| - 1;
    var skip, c := AnalyzeEntries(ex, threshold, path, entries[..n]).skip, LastSkip(ex, threshold, path, entries);
    SkipSplits(ex, threshold, path, entries);
    SiblingStops(path, entries, n, skip, c);
    EntriesLocal(ex, Paths(skip + c), path, Paths(skip), path, path, entries[..n]);
  }

  /** What is met at or below `d`, entry by entry: all of it below the entry that `d` lies in. */
  lemma UnderFront(ex: Path -> bool, threshold: int, path: Path, entries: seq<Entry>, d: Path)
    requires WellNamed(Dir(entries)) && entries != []
    requires var n := |entries| - 1;
      Item(d, Directory, 0) in
        WalkEntries(ex, Paths(AnalyzeEntries(ex, threshold, path, entries[..n]).skip), path, path, entries[..n])
    ensures var n := |entries| - 1;
      Under(WalkEntries(ex, Paths(AnalyzeEntries(ex, threshold, path, entries).skip), path, path, entries), d) ==
      Under(WalkEntries(ex, Paths(AnalyzeEntries(ex, threshold, path, entries[..n]).skip), path, path, entries[..n]), d)
  {
    var n := |entries| - 1;
    var skip0, skip := AnalyzeEntries(ex, threshold, path, entries[..n]).skip, AnalyzeEntries(ex, threshold, path,
      entries).skip;
    var front := WalkEntries(ex, Paths(skip0), path, path, entries[..n]);
    var child := path + [entries[n].name];
    OpenWalk(ex, threshold, path, entries);
    UnderAppend(front, Walk(ex, Paths(skip), path, child, entries[n].node), d);
    var k := EntriesBelow(ex, Paths(skip0), path, path, entries[..n], Item(d, Directory, 0));
    UnderOther(ex, Paths(skip), path, child, entries[n].node, d);
    assert Under(front, d) + [] == Under(front, d);
  }

  lemma UnderLast(ex: Path -> bool, threshold: int, path: Path, entries: seq<Entry>, d: Path)
    requires WellNamed(Dir(entries)) && entries != [] && path + [entries[|entries| - 1].name] <= d
    ensures var n := |entries| - 1;
      var stop := Paths(AnalyzeEntries(ex, threshold, path, entries).skip);
      Under(WalkEntries(ex, stop, path, path, entries), d) ==
      Under(Walk(ex, stop, path, path + [entries[n].name], entries[n].node), d)
  {
    var n := |entries| - 1;
    var stop0 := Paths(AnalyzeEntries(ex, threshold, path, entries[..n]).skip);
    var stop := Paths(AnalyzeEntries(ex, threshold, path, entries).skip);
    var last := Walk(ex, stop, path, path + [entries[n].name], entries[n].node);
    OpenWalk(ex, threshold, path, entries);
    UnderAppend(WalkEntries(ex, stop0, path, path, entries[..n]), last, d);
    UnderSiblings(ex, stop0, path, path, entries[..n], d, entries[n].name);
    assert [] + Under(last, d) == Under(last, d);
  }

  /** A directory that is met outside the layers below `path` is too small for a layer of its
      own: what is met at or below it stays under the threshold. */
  lemma {:induction false} OpenDirsAreSmall(ex: Path -> bool, threshold: int, path: Path, entries: seq<Entry>, d: Path)
    requires WellNamed(Dir(entries))
    requires var skip := AnalyzeEntries(ex, threshold, path, entries).skip;
      Item(d, Directory, 0) in WalkEntries(ex, Paths(skip), path, path, entries)
    ensures var skip := AnalyzeEntries(ex, threshold, path, entries).skip;
      Bytes(Under(WalkEntries(ex, Paths(skip), path, path, entries), d)) < threshold
    decreases entries
  {
    var n := |entries| - 1;
    var child, q := path + [entries[n].name], Item(d, Directory, 0);
    OpenWalk(ex, threshold, path, entries);
    if q in WalkEntries(ex, Paths(AnalyzeEntries(ex, threshold, path, entries[..n]).skip), path, path, entries[..n]) {
      OpenDirsAreSmall(ex, threshold, path, entries[..n], d);
      UnderFront(ex, threshold, path, entries, d);
    } else {
      ItemsBelow(ex, Paths(AnalyzeEntries(ex, threshold, path, entries).skip), path, child, entries[n].node, q);
      OpenChildIsSmall(ex, threshold, path, entries, d);
      UnderLast(ex, threshold, path, entries, d);
    }
  }

  lemma {:induction false} OpenChildIsSmall(ex: Path -> bool, threshold: int, path: Path, entries: seq<Entry>, d: Path)
    requires WellNamed(Dir(entries)) && entries != []
    requires var n := |entries| - 1;
      Item(d, Directory, 0) in Walk(ex, Paths(AnalyzeEntries(ex, threshold, path, entries).skip), path,
        path + [entries[n].name], entries[n].node)
    ensures var n := |entries| - 1;
      Bytes(Under(Walk(ex, Paths(AnalyzeEntries(ex, threshold, path, entries).skip), path,
        path + [entries[n].name], entries[n].node), d)) < threshold
    decreases entries, 0
  {
    var n := |entries| - 1;
    var child, node := path + [entries[n].name], entries[n].node;
    SkipSplits(ex, threshold, path, entries);
    assert !ex(child) && node.Dir? && child !in LastSkip(ex, threshold, path, entries);
    var below := node.entries;
    var b := AnalyzeEntries(ex, threshold, child, below);
    assert b.size < threshold;
    OpenChild(ex, threshold, path, entries, n);
    var here, sub := [Item(child, Directory, 0)], WalkEntries(ex, Paths(b.skip), child, child, below);
    if d == child {
      SizeIsMet(ex, threshold, child, below);
      forall i | 0 <= i < |sub| ensures child <= sub[i].path {
        var _ := EntriesBelow(ex, Paths(b.skip), child, child, below, sub[i]);
      }
      UnderAll(here + sub, d);
      BytesAppend(here, sub);
    } else {
      assert Item(d, Directory, 0) in sub;
      var _ := EntriesBelow(ex, Paths(b.skip), child, child, below, Item(d, Directory, 0));
      OpenDirsAreSmall(ex, threshold, child, below, d);
      UnderAppend(here, sub, d);
      UnderNone(here, d);
      assert [] + Under(sub, d) == Under(sub, d);
    }
  }

  // ----- The layers of an image -------------------------------------------------------------

  /** With a positive threshold, every layer but the base layer reaches it. */
  lemma LayersAreLarge(ex: Path -> bool, threshold: int, entries: seq<Entry>, i: nat)
    requires WellNamed(Dir(entries)) && threshold > 0 && 0 < i < |Image(ex, threshold, entries)|
    ensures Image(ex, threshold, entries)[i].size >= threshold
  {
    ThresholdReached(ex, threshold, entries, i);
  }

  /** And no larger directory is left inside a layer: in the walk of a layer, fewer bytes than
      the threshold are met at or below any directory other than the layer's own root. */
  lemma NoLayerIsMissed(ex: Path -> bool, threshold: int, entries: seq<Entry>, l: Layer, d: Path)
    requires WellNamed(Dir(entries)) && threshold > 0 && l in Image(ex, threshold, entries)
    requires d != l.root && Item(d, Directory, 0) in Met(ex, Dir(entries), l)
    ensures Bytes(Under(Met(ex, Dir(entries), l), d)) < threshold
  {
    assert l in AllLayers(ex, threshold, entries);
    var t := Effective(threshold);
    var below := entries;
    if l in AnalyzeEntries(ex, t, [], entries).layers {
      assert entries[..|entries|] == entries;
      LayersFromAnalysis(ex, t, [], entries, |entries|, l);
      AtWellNamed([], Dir(entries), l.root);
      below := At([], Dir(entries), l.root).value.entries;
    }
    ReachesNotExcluded(ex, threshold, entries, l);
    var here, sub := [Item(l.root, Directory, 0)], WalkEntries(ex, Paths(l.skip), l.root, l.root, below);
    assert Met(ex, Dir(entries), l) == here + sub;
    var _ := EntriesBelow(ex, Paths(l.skip), l.root, l.root, below, Item(d, Directory, 0));
    OpenDirsAreSmall(ex, t, l.root, below, d);
    UnderAppend(here, sub, d);
    UnderNone(here, d);
    assert [] + Under(sub, d) == Under(sub, d);
  }

  lemma SecondLayerCounts(layers: seq<Layer>)
    requires |layers| >= 2
    ensures SumSizes(layers) >= layers[1].size
  {
    var n := |layers| - 1;
    if n > 1 {
      SecondLayerCounts(layers[..n]);
    }
  }

  /** Without a threshold, an image of fewer than 2 to the 63 minus 1 bytes has one layer. */
  lemma NoThresholdOneLayer(ex: Path -> bool, threshold: int, entries: seq<Entry>)
    requires WellNamed(Dir(entries)) && threshold <= 0
    requires Bytes(Everything(ex, [], Dir(entries))) < 0x7fff_ffff_ffff_ffff
    ensures |Image(ex, threshold, entries)| == 1
  {
    var image := Image(ex, threshold, entries);
    TopDown(ex, threshold, entries);
    SizesConserved(ex, threshold, entries);
    if |image| >= 2 {
      ThresholdReached(ex, threshold, entries, 1);
      SecondLayerCounts(image);
      assert false;
    }
  }
}
