/** Loading an export configuration and everything it includes.

    The files are a finite map from sources to what reading and parsing them gives; a
    source outside the map does not exist.  Includes may form cycles. */
module ExportConfig {
  import opened Basics

  type Source = string

  datatype File = Broken | Config(includes: seq<string>, exclude: seq<string>, stripTimes: bool)

  /** The files, and how an include written in a source is resolved. */
  datatype World = World(files: map<Source, File>, resolve: (string, Source) -> Source)

  datatype Merged = Merged(exclude: seq<string>, stripTimes: bool)

  datatype Result<T> = Ok(value: T) | Err

  predicate Readable(w: World, s: Source)
  {
    s in w.files && w.files[s].Config?
  }

  /** `s` includes `t`. */
  predicate Edge(w: World, s: Source, t: Source)
  {
    Readable(w, s) && exists i :: 0 <= i < |w.files[s].includes| && t == w.resolve(w.files[s].includes[i], s)
  }

  function Merge(dst: Merged, src: Merged): Merged
  {
    Merged(dst.exclude + src.exclude, dst.stripTimes || src.stripTimes)
  }

  function Own(f: File): Merged
    requires f.Config?
  {
    Merged(f.exclude, f.stripTimes)
  }

  // ----- Depth-first search ------------------------------------------------------------

  /** The sources marked, those whose configuration was merged in the order they were
      finished, and whether every read went well. */
  datatype Outcome = Outcome(visited: set<Source>, order: seq<Source>, ok: bool)

  function Left(w: World, visited: set<Source>): nat
  {
    |w.files.Keys - visited|
  }

  function Visit(w: World, visited: set<Source>, source: Source, isRoot: bool): (r: Outcome)
    ensures visited <= r.visited
    decreases Left(w, visited), 0
  {
    if source in visited then Outcome(visited, [], true)
    else if source !in w.files then Outcome(visited + {source}, [], isRoot)
    else if w.files[source].Broken? then Outcome(visited + {source}, [], false)
    else
      assert w.files.Keys - (visited + {source}) < w.files.Keys - visited by { Fewer(w, visited, source); }
      Smaller(w.files.Keys - (visited + {source}), w.files.Keys - visited);
      var r := VisitAll(w, visited + {source}, source, w.files[source].includes);
      if r.ok then Outcome(r.visited, r.order + [source], true) else r
  }

  function VisitAll(w: World, visited: set<Source>, parent: Source, includes: seq<string>): (r: Outcome)
    ensures visited <= r.visited
    decreases Left(w, visited), |includes|
  {
    if includes == [] then Outcome(visited, [], true)
    else
      var n := |includes| - 1;
      var r := VisitAll(w, visited, parent, includes[..n]);
      if !r.ok then r
      else
        NoMore(w.files.Keys - r.visited, w.files.Keys - visited);
        var q := Visit(w, r.visited, w.resolve(includes[n], parent), false);
        Outcome(q.visited, r.order + q.order, q.ok)
  }

  lemma Fewer(w: World, visited: set<Source>, source: Source)
    requires source in w.files && source !in visited
    ensures w.files.Keys - (visited + {source}) < w.files.Keys - visited
  {
    assert source in w.files.Keys - visited;
  }

  /** The configuration merged from a list of sources. */
  function MergeAll(w: World, order: seq<Source>): Merged
    requires forall s :: s in order ==> Readable(w, s)
  {
    if order == [] then Merged([], false)
    else
      var n := |order| - 1;
      assert order[n] in order && Readable(w, order[n]);
      Merge(MergeAll(w, order[..n]), Own(w.files[order[n]]))
  }

  lemma {:induction false} MergeAllAppend(w: World, a: seq<Source>, b: seq<Source>)
    requires forall s :: s in a + b ==> Readable(w, s)
    ensures (forall s :: s in a ==> Readable(w, s)) && (forall s :: s in b ==> Readable(w, s))
    ensures MergeAll(w, a + b) == Merge(MergeAll(w, a), MergeAll(w, b))
    decreases |b|
  {
    if b == [] {
      assert a + b == a;
    } else {
      var n := |b| - 1;
      assert (a + b)[..|a + b| - 1] == a + b[..n];
      MergeAllAppend(w, a, b[..n]);
    }
  }

  /** Only readable sources are merged. */
  lemma {:induction false} VisitReadable(w: World, visited: set<Source>, source: Source, isRoot: bool)
    ensures forall s :: s in Visit(w, visited, source, isRoot).order ==> Readable(w, s)
    decreases Left(w, visited), 0
  {
    if source !in visited && Readable(w, source) {
      Fewer(w, visited, source);
      Smaller(w.files.Keys - (visited + {source}), w.files.Keys - visited);
      VisitAllReadable(w, visited + {source}, source, w.files[source].includes);
    }
  }

  lemma {:induction false} VisitAllReadable(w: World, visited: set<Source>, parent: Source, includes: seq<string>)
    ensures forall s :: s in VisitAll(w, visited, parent, includes).order ==> Readable(w, s)
    decreases Left(w, visited), |includes|
  {
    if includes != [] {
      var n := |includes| - 1;
      var r := VisitAll(w, visited, parent, includes[..n]);
      VisitAllReadable(w, visited, parent, includes[..n]);
      if r.ok {
        NoMore(w.files.Keys - r.visited, w.files.Keys - visited);
        VisitReadable(w, r.visited, w.resolve(includes[n], parent), false);
      }
    }
  }

  // ----- The code ----------------------------------------------------------------------

  /** The loader and the map of sources it has already processed. */
  class Loader {
    const world: World
    var visited: set<Source>

    constructor (w: World)
      ensures world == w && visited == {}
    {
      world := w;
      visited := {};
    }

    method LoadFrom(source: Source, isRoot: bool) returns (r: Result<Merged>)
      modifies this
      ensures var q := Visit(world, old(visited), source, isRoot);
        && visited == q.visited && (r.Ok? <==> q.ok)
        && (r.Ok? ==> (forall s :: s in q.order ==> Readable(world, s)) && r.value == MergeAll(world, q.order))
      decreases Left(world, visited), 0
    {
      if source in visited {
        return Ok(Merged([], false));
      }
      ghost var before := visited;
      visited := visited + {source};
      if source !in world.files {
        return if isRoot then Ok(Merged([], false)) else Err;
      }
      var file := world.files[source];
      if file.Broken? {
        return Err;
      }
      Fewer(world, before, source);
      Smaller(world.files.Keys - (before + {source}), world.files.Keys - before);
      var merged := Merged([], false);
      assert file.includes[..0] == [];
      ghost var q := VisitAll(world, before + {source}, source, []);
      for i := 0 to |file.includes|
        invariant q == VisitAll(world, before + {source}, source, file.includes[..i])
        invariant q.ok && visited == q.visited && (forall s :: s in q.order ==> Readable(world, s))
        invariant merged == MergeAll(world, q.order)
      {
        assert file.includes[..i + 1][..i] == file.includes[..i];
        NoMore(world.files.Keys - visited, world.files.Keys - (before + {source}));
        ghost var p := Visit(world, visited, world.resolve(file.includes[i], source), false);
        var included := LoadFrom(world.resolve(file.includes[i], source), false);
        q := VisitAll(world, before + {source}, source, file.includes[..i + 1]);
        if included.Err? {
          StopsEarly(world, before + {source}, source, file.includes, i + 1);
          return Err;
        }
        MergeAllAppend(world, VisitAll(world, before + {source}, source, file.includes[..i]).order, p.order);
        merged := Merge(merged, included.value);
      }
      assert file.includes[..|file.includes|] == file.includes;
      return Ok(Merge(merged, Own(file)));
    }
  }

  /** Once an include has failed, the rest is not looked at. */
  lemma {:induction false} StopsEarly(w: World, visited: set<Source>, parent: Source, includes: seq<string>, n: nat)
    requires n <= |includes| && !VisitAll(w, visited, parent, includes[..n]).ok
    ensures VisitAll(w, visited, parent, includes) == VisitAll(w, visited, parent, includes[..n])
    decreases |includes| - n
  {
    if n == |includes| {
      assert includes[..n] == includes;
    } else {
      assert includes[..n + 1][..n] == includes[..n];
      StopsEarly(w, visited, parent, includes, n + 1);
    }
  }

  /** `r` is what the search from `root` merges, or an error if it fails. */
  ghost predicate Loads(w: World, root: Source, r: Result<Merged>)
  {
    var q := Visit(w, {}, root, true);
    && (r.Ok? <==> q.ok)
    && (r.Ok? ==> (forall s :: s in q.order ==> Readable(w, s)) && r.value == MergeAll(w, q.order))
  }

  method LoadExportConfig(w: World, path: Source) returns (r: Result<Merged>)
    ensures Loads(w, if path == "" then DEFAULT_PATH else path, r)
  {
    var loader := new Loader(w);
    r := loader.LoadFrom(if path == "" then DEFAULT_PATH else path, true);
  }

  const DEFAULT_PATH := "/.dockerexports"
}
