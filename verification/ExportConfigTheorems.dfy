/** What loading an export configuration computes: the sources reachable from the root,
    each merged once, an include before the source that includes it unless they are on
    one cycle. */
module ExportConfigTheorems {
  import opened Basics
  import opened ExportConfig

  // ----- Reachability --------------------------------------------------------------------

  ghost predicate IsPath(w: World, p: seq<Source>)
  {
    p != [] && forall i :: 0 <= i < |p| - 1 ==> Edge(w, p[i], p[i + 1])
  }

  ghost predicate Leads(w: World, p: seq<Source>, s: Source, t: Source)
  {
    IsPath(w, p) && p[0] == s && p[|p| - 1] == t
  }

  ghost predicate Reaches(w: World, s: Source, t: Source)
  {
    exists p :: Leads(w, p, s, t)
  }

  lemma ReachesSelf(w: World, s: Source)
    ensures Reaches(w, s, s)
  {
    assert Leads(w, [s], s, s);
  }

  lemma ReachesStep(w: World, s: Source, t: Source, u: Source)
    requires Reaches(w, s, t) && Edge(w, t, u)
    ensures Reaches(w, s, u)
  {
    var p :| Leads(w, p, s, t);
    assert Leads(w, p + [u], s, u);
  }

  lemma StepReaches(w: World, s: Source, t: Source, u: Source)
    requires Edge(w, s, t) && Reaches(w, t, u)
    ensures Reaches(w, s, u)
  {
    var p :| Leads(w, p, t, u);
    var q := [s] + p;
    forall i | 0 <= i < |q| - 1 ensures Edge(w, q[i], q[i + 1]) {
      if i > 0 {
        assert Edge(w, p[i - 1], p[i]);
      }
    }
    assert Leads(w, q, s, u);
  }

  ghost predicate Closed(w: World, nodes: set<Source>)
  {
    forall s, t :: s in nodes && Edge(w, s, t) ==> t in nodes
  }

  lemma {:induction false} ClosedAlong(w: World, nodes: set<Source>, p: seq<Source>)
    requires Closed(w, nodes) && IsPath(w, p) && p[0] in nodes
    ensures p[|p| - 1] in nodes
    decreases |p|
  {
    if |p| > 1 {
      assert Edge(w, p[0], p[1]);
      var rest := p[1..];
      forall i | 0 <= i < |rest| - 1 ensures Edge(w, rest[i], rest[i + 1]) {
        assert Edge(w, p[i + 1], p[i + 2]);
      }
      ClosedAlong(w, nodes, rest);
    }
  }

  lemma IncludeIsEdge(w: World, s: Source, n: nat)
    requires Readable(w, s) && n < |w.files[s].includes|
    ensures Edge(w, s, w.resolve(w.files[s].includes[n], s))
  {
  }

  // ----- What one visit marks ----------------------------------------------------------------

  ghost predicate NoRepeat(order: seq<Source>)
  {
    forall i, j :: 0 <= i < j < |order| ==> order[i] != order[j]
  }

  /** Each newly marked source is merged exactly once, and all it includes are marked. */
  ghost predicate Fair(w: World, visited: set<Source>, r: Outcome)
  {
    && NoRepeat(r.order)
    && (forall s :: s in r.order <==> s in r.visited && s !in visited)
    && (forall s, t :: s in r.order && Edge(w, s, t) ==> t in r.visited)
  }

  lemma FairAppend(w: World, visited: set<Source>, r: Outcome, q: Outcome)
    requires visited <= r.visited <= q.visited && Fair(w, visited, r) && Fair(w, r.visited, q)
    ensures Fair(w, visited, Outcome(q.visited, r.order + q.order, q.ok))
  {
    forall i, j | 0 <= i < |r.order| && 0 <= j < |q.order| ensures r.order[i] != q.order[j] {
      assert r.order[i] in r.order && q.order[j] in q.order;
    }
  }

  lemma {:induction false} VisitFair(w: World, visited: set<Source>, source: Source)
    requires Visit(w, visited, source, false).ok
    ensures Fair(w, visited, Visit(w, visited, source, false)) && source in Visit(w, visited, source, false).visited
    decreases Left(w, visited), 0
  {
    if source !in visited {
      Fewer(w, visited, source);
      Smaller(w.files.Keys - (visited + {source}), w.files.Keys - visited);
      var includes := w.files[source].includes;
      assert includes[..|includes|] == includes;
      VisitAllFair(w, visited + {source}, source, |includes|);
      var r := VisitAll(w, visited + {source}, source, includes);
      forall t | Edge(w, source, t) ensures t in r.visited {
        var i :| 0 <= i < |includes| && t == w.resolve(includes[i], source);
      }
    }
  }

  lemma {:induction false} VisitAllFair(w: World, visited: set<Source>, parent: Source, n: nat)
    requires Readable(w, parent) && n <= |w.files[parent].includes|
    requires VisitAll(w, visited, parent, w.files[parent].includes[..n]).ok
    ensures var r := VisitAll(w, visited, parent, w.files[parent].includes[..n]);
      && Fair(w, visited, r)
      && forall i :: 0 <= i < n ==> w.resolve(w.files[parent].includes[i], parent) in r.visited
    decreases Left(w, visited), n
  {
    if n > 0 {
      var includes := w.files[parent].includes;
      assert includes[..n][..n - 1] == includes[..n - 1];
      var r := VisitAll(w, visited, parent, includes[..n - 1]);
      VisitAllFair(w, visited, parent, n - 1);
      NoMore(w.files.Keys - r.visited, w.files.Keys - visited);
      VisitFair(w, r.visited, w.resolve(includes[n - 1], parent));
      FairAppend(w, visited, r, Visit(w, r.visited, w.resolve(includes[n - 1], parent), false));
    }
  }

  // ----- Only reachable sources, and why a load fails ------------------------------------------

  /** Whatever a visit marks is reachable from where it starts; if it fails, a source that
      cannot be read is reachable. */
  ghost predicate Sensible(w: World, visited: set<Source>, source: Source, r: Outcome)
  {
    && (forall t :: t in r.visited && t !in visited ==> Reaches(w, source, t))
    && (r.ok || exists t :: Reaches(w, source, t) && !Readable(w, t))
  }

  lemma SensibleFrom(w: World, visited: set<Source>, s: Source, t: Source, r: Outcome)
    requires Edge(w, s, t) && Sensible(w, visited, t, r)
    ensures Sensible(w, visited, s, r)
  {
    forall u | Reaches(w, t, u) ensures Reaches(w, s, u) {
      StepReaches(w, s, t, u);
    }
  }

  lemma {:induction false} VisitSensible(w: World, visited: set<Source>, source: Source)
    ensures Sensible(w, visited, source, Visit(w, visited, source, false))
    decreases Left(w, visited), 0
  {
    ReachesSelf(w, source);
    if source !in visited && Readable(w, source) {
      Fewer(w, visited, source);
      Smaller(w.files.Keys - (visited + {source}), w.files.Keys - visited);
      var includes := w.files[source].includes;
      assert includes[..|includes|] == includes;
      VisitAllSensible(w, visited + {source}, source, |includes|);
    }
  }

  lemma {:induction false} VisitAllSensible(w: World, visited: set<Source>, parent: Source, n: nat)
    requires Readable(w, parent) && n <= |w.files[parent].includes|
    ensures Sensible(w, visited, parent, VisitAll(w, visited, parent, w.files[parent].includes[..n]))
    decreases Left(w, visited), n
  {
    if n > 0 {
      var includes := w.files[parent].includes;
      assert includes[..n][..n - 1] == includes[..n - 1];
      var r := VisitAll(w, visited, parent, includes[..n - 1]);
      VisitAllSensible(w, visited, parent, n - 1);
      if r.ok {
        NoMore(w.files.Keys - r.visited, w.files.Keys - visited);
        var t := w.resolve(includes[n - 1], parent);
        VisitSensible(w, r.visited, t);
        IncludeIsEdge(w, parent, n - 1);
        SensibleFrom(w, r.visited, parent, t, Visit(w, r.visited, t, false));
      }
    }
  }

  lemma RootOrNot(w: World, root: Source)
    requires root in w.files
    ensures Visit(w, {}, root, true) == Visit(w, {}, root, false)
  {
  }

  /** A load succeeds exactly when every reachable source can be read, except that the
      root need not exist.  It then marks exactly the reachable sources and merges each of
      them once. */
  lemma LoadsReachable(w: World, root: Source)
    ensures var r := Visit(w, {}, root, true);
      && (r.ok <==> root !in w.files || forall t :: Reaches(w, root, t) ==> Readable(w, t))
      && (r.ok && root in w.files ==>
            && NoRepeat(r.order)
            && (forall t :: t in r.visited <==> Reaches(w, root, t))
            && (forall t :: t in r.order <==> Reaches(w, root, t)))
  {
    if root in w.files {
      RootOrNot(w, root);
      VisitSensible(w, {}, root);
      VisitReadable(w, {}, root, false);
      var r := Visit(w, {}, root, false);
      if r.ok {
        VisitFair(w, {}, root);
        forall t | Reaches(w, root, t) ensures t in r.visited {
          var p :| Leads(w, p, root, t);
          ClosedAlong(w, r.visited, p);
        }
      }
    }
  }

  // ----- Finishing order -------------------------------------------------------------------------

  /** An include `t` of `s` was merged before it, had been finished before, or leads back
      to it.  `gray` are the sources still being worked on. */
  ghost predicate Precedes(w: World, visited: set<Source>, gray: set<Source>, before: seq<Source>, t: Source, s: Source)
  {
    t in before || t in visited - gray || Reaches(w, t, s)
  }

  ghost predicate IncludesPrecede(w: World, visited: set<Source>, gray: set<Source>, before: seq<Source>, s: Source)
  {
    forall t :: Edge(w, s, t) ==> Precedes(w, visited, gray, before, t, s)
  }

  ghost predicate Ordered(w: World, visited: set<Source>, gray: set<Source>, order: seq<Source>)
  {
    forall i :: 0 <= i < |order| ==> IncludesPrecede(w, visited, gray, order[..i], order[i])
  }

  lemma OrderedAppend(w: World, visited: set<Source>, gray: set<Source>, a: seq<Source>, visited': set<Source>,
          b: seq<Source>)
    requires Ordered(w, visited, gray, a) && Ordered(w, visited', gray, b)
    requires forall s :: s in visited' ==> s in visited || s in a
    ensures Ordered(w, visited, gray, a + b)
  {
    var c := a + b;
    forall i | 0 <= i < |c| ensures IncludesPrecede(w, visited, gray, c[..i], c[i]) {
      if i < |a| {
        assert c[..i] == a[..i] && IncludesPrecede(w, visited, gray, a[..i], a[i]);
      } else {
        var k := i - |a|;
        assert c[..i] == a + b[..k] && IncludesPrecede(w, visited', gray, b[..k], b[k]);
        forall t | Edge(w, c[i], t) ensures Precedes(w, visited, gray, c[..i], t, c[i]) {
          assert Precedes(w, visited', gray, b[..k], t, b[k]);
        }
      }
    }
  }

  lemma {:induction false} VisitOrdered(w: World, visited: set<Source>, gray: set<Source>, source: Source)
    requires gray <= visited && Visit(w, visited, source, false).ok
    requires forall g :: g in gray ==> Reaches(w, g, source)
    ensures Ordered(w, visited, gray, Visit(w, visited, source, false).order)
    decreases Left(w, visited), 0
  {
    if source !in visited {
      Fewer(w, visited, source);
      Smaller(w.files.Keys - (visited + {source}), w.files.Keys - visited);
      var includes := w.files[source].includes;
      assert includes[..|includes|] == includes;
      ReachesSelf(w, source);
      VisitAllOrdered(w, visited + {source}, gray + {source}, source, |includes|);
      VisitAllFair(w, visited + {source}, source, |includes|);
      var r := VisitAll(w, visited + {source}, source, includes);
      SourceLast(w, visited, gray, source, r);
    }
  }

  lemma SourceLast(w: World, visited: set<Source>, gray: set<Source>, source: Source, r: Outcome)
    requires Ordered(w, visited + {source}, gray + {source}, r.order) && source !in visited && gray <= visited
    requires Fair(w, visited + {source}, r) && Reaches(w, source, source)
    requires forall g :: g in gray ==> Reaches(w, g, source)
    requires forall t :: Edge(w, source, t) ==> t in r.visited
    ensures Ordered(w, visited, gray, r.order + [source])
  {
    var c := r.order + [source];
    forall i | 0 <= i < |c| ensures IncludesPrecede(w, visited, gray, c[..i], c[i]) {
      if i < |r.order| {
        assert c[..i] == r.order[..i] && IncludesPrecede(w, visited + {source}, gray + {source}, r.order[..i],
          r.order[i]);
        forall t | Edge(w, c[i], t) ensures Precedes(w, visited, gray, c[..i], t, c[i]) {
          assert Precedes(w, visited + {source}, gray + {source}, r.order[..i], t, r.order[i]);
        }
      } else {
        assert c[..i] == r.order;
      }
    }
  }

  lemma {:induction false} VisitAllOrdered(w: World, visited: set<Source>, gray: set<Source>, parent: Source, n: nat)
    requires gray <= visited && Readable(w, parent) && n <= |w.files[parent].includes|
    requires VisitAll(w, visited, parent, w.files[parent].includes[..n]).ok
    requires forall g :: g in gray ==> Reaches(w, g, parent)
    ensures Ordered(w, visited, gray, VisitAll(w, visited, parent, w.files[parent].includes[..n]).order)
    decreases Left(w, visited), n
  {
    if n > 0 {
      var includes := w.files[parent].includes;
      assert includes[..n][..n - 1] == includes[..n - 1];
      var r := VisitAll(w, visited, parent, includes[..n - 1]);
      var t := w.resolve(includes[n - 1], parent);
      VisitAllOrdered(w, visited, gray, parent, n - 1);
      VisitAllFair(w, visited, parent, n - 1);
      NoMore(w.files.Keys - r.visited, w.files.Keys - visited);
      IncludeIsEdge(w, parent, n - 1);
      forall g | g in gray ensures Reaches(w, g, t) {
        ReachesStep(w, g, parent, t);
      }
      VisitOrdered(w, r.visited, gray, t);
      OrderedAppend(w, visited, gray, r.order, r.visited, Visit(w, r.visited, t, false).order);
    }
  }

  /** An included source is merged before the source that includes it, so that the latter
      comes on top, unless the included one leads back to it. */
  lemma IncludesComeFirst(w: World, root: Source, i: nat, t: Source)
    requires Visit(w, {}, root, true).ok && i < |Visit(w, {}, root, true).order|
    requires Edge(w, Visit(w, {}, root, true).order[i], t)
    ensures var order := Visit(w, {}, root, true).order; t in order[..i] || Reaches(w, t, order[i])
  {
    RootOrNot(w, root);
    VisitOrdered(w, {}, {}, root);
    var order := Visit(w, {}, root, true).order;
    assert IncludesPrecede(w, {}, {}, order[..i], order[i]);
    assert Precedes(w, {}, {}, order[..i], t, order[i]);
  }

  // ----- The merged configuration ---------------------------------------------------------------

  /** Times are stripped exactly when some merged source asks for it. */
  lemma {:induction false} StripsIffAny(w: World, order: seq<Source>)
    requires forall s :: s in order ==> Readable(w, s)
    ensures MergeAll(w, order).stripTimes <==> exists s :: s in order && w.files[s].stripTimes
    decreases |order|
  {
    if order != [] {
      var n := |order| - 1;
      StripsIffAny(w, order[..n]);
      assert order == order[..n] + [order[n]];
    }
  }

  /** The exclude list is the sources' own lists, one after the other. */
  function Concat(lists: seq<seq<string>>): seq<string>
  {
    if lists == [] then [] else Concat(lists[..|lists| - 1]) + lists[|lists| - 1]
  }

  /** The exclude lists of the sources. */
  function Excludes(w: World, order: seq<Source>): seq<seq<string>>
    requires forall s :: s in order ==> Readable(w, s)
  {
    assert forall i :: 0 <= i < |order| ==> order[i] in order;
    seq(|order|, i requires 0 <= i < |order| && Readable(w, order[i]) => w.files[order[i]].exclude)
  }

  lemma {:induction false} ExcludesInOrder(w: World, order: seq<Source>)
    requires forall s :: s in order ==> Readable(w, s)
    ensures MergeAll(w, order).exclude == Concat(Excludes(w, order))
    decreases |order|
  {
    if order != [] {
      var n := |order| - 1;
      ExcludesInOrder(w, order[..n]);
      assert Excludes(w, order)[..n] == Excludes(w, order[..n]);
    }
  }

  // ----- The loaded configuration ---------------------------------------------------------------

  /** Every reachable source once, an included one before the source that includes it unless
      it leads back to it. */
  ghost predicate MergeOrder(w: World, root: Source, order: seq<Source>)
  {
    && NoRepeat(order)
    && (forall t :: t in order <==> Reaches(w, root, t))
    && (forall i, t :: 0 <= i < |order| && Edge(w, order[i], t) ==> t in order[..i] || Reaches(w, t, order[i]))
  }

  /** The configuration `LoadExportConfig` returns: it is an error exactly when a reachable
      source cannot be read, a missing root aside; a missing root gives the empty one; and
      otherwise it has the exclude lists of all reachable sources in the order above, and
      strips times exactly when one of them asks for it. */
  lemma LoadedConfiguration(w: World, root: Source, r: Result<Merged>) returns (order: seq<Source>)
    requires Loads(w, root, r)
    ensures r.Ok? <==> root !in w.files || forall t :: Reaches(w, root, t) ==> Readable(w, t)
    ensures r.Ok? && root !in w.files ==> r.value == Merged([], false)
    ensures r.Ok? && root in w.files ==>
      && MergeOrder(w, root, order) && (forall s :: s in order ==> Readable(w, s))
      && r.value.exclude == Concat(Excludes(w, order))
      && (r.value.stripTimes <==> exists s :: Reaches(w, root, s) && Readable(w, s) && w.files[s].stripTimes)
  {
    order := Visit(w, {}, root, true).order;
    LoadsReachable(w, root);
    if r.Ok? && root in w.files {
      forall i, t | 0 <= i < |order| && Edge(w, order[i], t) ensures t in order[..i] || Reaches(w, t, order[i]) {
        IncludesComeFirst(w, root, i, t);
      }
      ExcludesInOrder(w, order);
      StripsIffAny(w, order);
    }
  }
}
