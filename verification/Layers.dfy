/** Splitting an image's file tree into layers, and what each layer streams.

    Paths are sequences of names below the mount point; the exclusion patterns are an
    arbitrary predicate on paths.  Entry kinds a tar archive does not carry (sockets,
    pipes and devices) are `Special`. */
module Layers {
  import opened Basics

  type Path = seq<string>

  datatype Kind = Directory | Regular | Symlink | Special

  datatype Node = Leaf(kind: Kind, size: nat) | Dir(entries: seq<Entry>)

  datatype Entry = Entry(name: string, node: Node)

  datatype Item = Item(path: Path, kind: Kind, size: nat)

  datatype Layer = Layer(root: Path, skip: seq<Path>, size: nat)

  /** Names in one directory are distinct, and only directories have entries. */
  predicate WellNamed(node: Node)
  {
    match node
    case Leaf(kind, _) => kind != Directory
    case Dir(entries) =>
      && (forall i, j :: 0 <= i < j < |entries| ==> entries[i].name != entries[j].name)
      && (forall i :: 0 <= i < |entries| ==> WellNamed(entries[i].node))
  }

  predicate Excluded(ex: Path -> bool, path: Path)
  {
    path != [] && ex(path)
  }

  // ----- Streaming -----------------------------------------------------------------

  /** The entries met by a walk from `top` that does not enter a directory in `stop`, in
      the order they are met. */
  function Walk(ex: Path -> bool, stop: set<Path>, top: Path, path: Path, node: Node): seq<Item>
    decreases node
  {
    if node.Dir? && path != top && path in stop then []
    else if Excluded(ex, path) then []
    else match node
      case Leaf(kind, size) => [Item(path, kind, size)]
      case Dir(entries) => [Item(path, Directory, 0)] + WalkEntries(ex, stop, top, path, entries)
  }

  function WalkEntries(ex: Path -> bool, stop: set<Path>, top: Path, path: Path, entries: seq<Entry>): seq<Item>
    decreases entries
  {
    if entries == [] then []
    else
      var n := |entries| - 1;
      WalkEntries(ex, stop, top, path, entries[..n]) + Walk(ex, stop, top, path + [entries[n].name], entries[n].node)
  }

  /** Every entry of the subtree that is not excluded. */
  function Everything(ex: Path -> bool, path: Path, node: Node): seq<Item>
  {
    Walk(ex, {}, [], path, node)
  }

  function IndexOf(entries: seq<Entry>, name: string): (k: nat)
    ensures k <= |entries| && (k < |entries| ==> entries[k].name == name)
    ensures forall j :: 0 <= j < k ==> entries[j].name != name
  {
    if entries == [] then 0
    else if entries[0].name == name then 0
    else 1 + IndexOf(entries[1..], name)
  }

  /** What the file system has at `target`, below `node` at `path`. */
  function At(path: Path, node: Node, target: Path): Option<Node>
    decreases |target| - |path|
  {
    if target == path then Some(node)
    else if node.Leaf? || !(path < target) then None
    else
      var k := IndexOf(node.entries, target[|path|]);
      if k < |node.entries| then At(path + [target[|path|]], node.entries[k].node, target) else None
  }

  function Paths(s: seq<Path>): set<Path>
  {
    set p | p in s
  }

  /** What the walk of a layer meets. */
  function Met(ex: Path -> bool, tree: Node, layer: Layer): seq<Item>
  {
    match At([], tree, layer.root)
    case None => []
    case Some(node) => Walk(ex, Paths(layer.skip), layer.root, layer.root, node)
  }

  /** Sockets, pipes and devices are left out of an archive. */
  function Emit(items: seq<Item>): seq<Item>
  {
    if items == [] then []
    else Emit(items[..|items| - 1]) + (var q := items[|items| - 1]; if q.kind == Special then [] else [q])
  }

  /** What a layer puts into its archive. */
  function Streamed(ex: Path -> bool, tree: Node, layer: Layer): seq<Item>
  {
    Emit(Met(ex, tree, layer))
  }

  // ----- Splitting -----------------------------------------------------------------

  datatype Analysis = Analysis(layers: seq<Layer>, size: nat, skip: seq<Path>)

  /** The directory at `path` becomes a layer of its own. */
  function Close(a: Analysis, path: Path): Analysis
  {
    Analysis(a.layers + [Layer(path, a.skip, a.size)], 0, [path])
  }

  function AnalyzeEntries(ex: Path -> bool, threshold: int, path: Path, entries: seq<Entry>): Analysis
    decreases entries
  {
    if entries == [] then Analysis([], 0, [])
    else
      var n := |entries| - 1;
      var a := AnalyzeEntries(ex, threshold, path, entries[..n]);
      var child := path + [entries[n].name];
      if ex(child) then a
      else match entries[n].node
        case Leaf(_, size) => a.(size := a.size + size)
        case Dir(below) =>
          var b := AnalyzeEntries(ex, threshold, child, below);
          var c := if b.size >= threshold then Close(b, child) else b;
          Analysis(a.layers + c.layers, a.size + c.size, a.skip + c.skip)
  }

  const MAX_INT64: int := 0x7fff_ffff_ffff_ffff

  function Effective(threshold: int): int
  {
    if threshold <= 0 then MAX_INT64 else threshold
  }

  /** All layers of a tree, bottom up. */
  function AllLayers(ex: Path -> bool, threshold: int, entries: seq<Entry>): seq<Layer>
  {
    Close(AnalyzeEntries(ex, Effective(threshold), [], entries), []).layers
  }

  function Reverse<T>(s: seq<T>): seq<T>
  {
    seq(|s|, i requires 0 <= i < |s| => s[|s| - 1 - i])
  }

  // ----- The code ------------------------------------------------------------------

  /** The slice of layers found so far, which the recursion appends to. */
  class LayerList {
    var layers: seq<Layer>

    constructor ()
      ensures layers == []
    {
      layers := [];
    }

    method AnalyzeDir(ex: Path -> bool, threshold: int, dir: Path, entries: seq<Entry>)
      returns (unallocated: nat, skip: seq<Path>)
      modifies this
      ensures var a := AnalyzeEntries(ex, threshold, dir, entries);
        var b := if a.size >= threshold then Close(a, dir) else a;
        layers == old(layers) + b.layers && unallocated == b.size && skip == b.skip
      decreases entries
    {
      var size: nat := 0;
      skip := [];
      for i := 0 to |entries|
        invariant old(layers) <= layers
        invariant Analysis(layers[|old(layers)|..], size, skip) == AnalyzeEntries(ex, threshold, dir, entries[..i])
      {
        assert entries[..i + 1][..i] == entries[..i];
        var child := dir + [entries[i].name];
        if ex(child) {
          continue;
        }
        match entries[i].node {
          case Leaf(_, leafSize) =>
            size := size + leafSize;
          case Dir(below) =>
            var subUnallocated, subSkip := AnalyzeDir(ex, threshold, child, below);
            skip := skip + subSkip;
            size := size + subUnallocated;
        }
      }
      assert entries[..|entries|] == entries;
      if size >= threshold {
        layers := layers + [Layer(dir, skip, size)];
        return 0, [dir];
      }
      return size, skip;
    }
  }

  method CoversRoot(layers: seq<Layer>) returns (covered: bool)
    ensures covered <==> exists k :: 0 <= k < |layers| && layers[k].root == []
  {
    for i := 0 to |layers|
      invariant forall k :: 0 <= k < i ==> layers[k].root != []
    {
      if layers[i].root == [] {
        return true;
      }
    }
    return false;
  }

  method ReverseInPlace(layers: array<Layer>)
    modifies layers
    ensures layers[..] == Reverse(old(layers[..]))
  {
    var i, j := 0, layers.Length - 1;
    while i < j
      invariant 0 <= i <= j + 1 && i + j == layers.Length - 1
      invariant forall k :: 0 <= k < i || j < k < layers.Length ==> layers[k] == old(layers[layers.Length - 1 - k])
      invariant forall k :: i <= k <= j ==> layers[k] == old(layers[k])
    {
      layers[i], layers[j] := layers[j], layers[i];
      i, j := i + 1, j - 1;
    }
  }

  method CollectLayers(ex: Path -> bool, threshold: int, entries: seq<Entry>) returns (found: seq<Layer>)
    ensures found == AllLayers(ex, threshold, entries)
  {
    ClosingOnce(ex, threshold, entries);
    var out := new LayerList();
    ghost var a := AnalyzeEntries(ex, Effective(threshold), [], entries);
    var unallocated, skip := out.AnalyzeDir(ex, Effective(threshold), [], entries);
    found := out.layers;
    var covered := CoversRoot(found);
    if a.size >= Effective(threshold) {
      assert found == Close(a, []).layers && found[|a.layers|].root == [];
    } else {
      assert found == a.layers;
    }
    if !covered || unallocated > 0 {
      found := found + [Layer([], skip, unallocated)];
    }
  }

  method ComputeLayers(ex: Path -> bool, threshold: int, entries: seq<Entry>) returns (layers: array<Layer>)
    ensures layers[..] == Reverse(AllLayers(ex, threshold, entries))
  {
    var found := CollectLayers(ex, threshold, entries);
    layers := new Layer[|found|](i requires 0 <= i < |found| => found[i]);
    assert layers[..] == found;
    ReverseInPlace(layers);
  }

  /** Whether the root reached the threshold or the remainder is added at the end, the
      layers come out the same. */
  lemma ClosingOnce(ex: Path -> bool, threshold: int, entries: seq<Entry>)
    ensures var a := AnalyzeEntries(ex, Effective(threshold), [], entries);
      if a.size >= Effective(threshold) then Close(a, []).layers[|a.layers|].root == []
      else forall k :: 0 <= k < |a.layers| ==> a.layers[k].root != []
  {
    RootsBelow(ex, Effective(threshold), [], entries);
  }

  /** Layer roots found below a directory are strictly below it. */
  lemma {:induction false} RootsBelow(ex: Path -> bool, threshold: int, path: Path, entries: seq<Entry>)
    ensures var a := AnalyzeEntries(ex, threshold, path, entries);
      && (forall l :: l in a.layers ==> path < l.root)
      && (forall s :: s in a.skip ==> path < s)
    decreases entries
  {
    if entries != [] {
      var n := |entries| - 1;
      RootsBelow(ex, threshold, path, entries[..n]);
      if entries[n].node.Dir? {
        RootsBelow(ex, threshold, path + [entries[n].name], entries[n].node.entries);
      }
    }
  }
}
