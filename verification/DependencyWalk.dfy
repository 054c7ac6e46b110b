/** The dependency-graph printer of tools/codestat: a depth-first walk that keeps
    a set of printed packages (visited) and the set of packages on the current
    path (pathVisited). */
module DependencyWalk {
  import opened Common

  type Package = string

  type Graph = map<Package, set<Package>>

  /** One printed line. The trail is the chain of packages from the root to this
      line. */
  datatype Line = Line(prefix: string, pkg: Package, circular: bool, ghost trail: seq<Package>)

  /** The graph behind the dependency slices: their order does not matter. */
  ghost function GraphOf(deps: map<Package, seq<Package>>): Graph {
    map k | k in deps :: Elements(deps[k])
  }

  ghost predicate Edge(g: Graph, a: Package, b: Package) {
    a in g && b in g[a]
  }

  ghost function Nodes(g: Graph): set<Package> {
    g.Keys + (set k, x | k in g && x in g[k] :: x)
  }

  ghost predicate IsWalk(g: Graph, p: seq<Package>) {
    forall i :: 0 <= i < |p| - 1 ==> Edge(g, p[i], p[i + 1])
  }

  /** p leads from a to b along edges and meets no package of avoid. */
  ghost predicate IsPath(g: Graph, p: seq<Package>, a: Package, b: Package, avoid: set<Package>) {
    && p != [] && p[0] == a && p[|p| - 1] == b
    && IsWalk(g, p)
    && forall x :: x in p ==> x !in avoid
  }

  ghost predicate Reach(g: Graph, a: Package, b: Package, avoid: set<Package>) {
    exists p :: IsPath(g, p, a, b, avoid)
  }

  /** A walk from a none of whose packages before the last repeats or lies in
      avoid: what one printed line stands for. */
  ghost predicate IsTrail(g: Graph, w: seq<Package>, a: Package, avoid: set<Package>) {
    && w != [] && w[0] == a
    && IsWalk(g, w)
    && Distinct(w[..|w| - 1])
    && forall x :: x in w[..|w| - 1] ==> x !in avoid
  }

  // ---------- reachability ----------

  /** A path can be cut after its last visit to its first package, so one step of
      the walk accounts for everything reachable. */
  lemma ReachStep(g: Graph, a: Package, b: Package, avoid: set<Package>)
    requires a !in avoid
    ensures Reach(g, a, b, avoid) <==>
            b == a || exists d :: Edge(g, a, d) && d !in avoid + {a} && Reach(g, d, b, avoid + {a})
  {
    if Reach(g, a, b, avoid) && b != a {
      var p :| IsPath(g, p, a, b, avoid);
      var k := LastVisit(p, a);
      var q := p[k + 1..];
      assert IsPath(g, q, p[k + 1], b, avoid + {a}) by {
        forall x | x in q ensures x !in avoid + {a} {
          var i :| 0 <= i < |q| && q[i] == x;
          assert q[i] == p[k + 1 + i];
        }
        forall i | 0 <= i < |q| - 1 ensures Edge(g, q[i], q[i + 1]) {
          assert Edge(g, p[k + 1 + i], p[k + 1 + i + 1]);
        }
      }
      assert Edge(g, p[k], p[k + 1]);
      assert q[0] !in avoid + {a};
    }
    if b == a {
      assert IsPath(g, [a], a, b, avoid);
    } else if exists d :: Edge(g, a, d) && d !in avoid + {a} && Reach(g, d, b, avoid + {a}) {
      var d :| Edge(g, a, d) && d !in avoid + {a} && Reach(g, d, b, avoid + {a});
      var p :| IsPath(g, p, d, b, avoid + {a});
      var q := [a] + p;
      assert IsPath(g, q, a, b, avoid) by {
        forall i | 0 <= i < |q| - 1 ensures Edge(g, q[i], q[i + 1]) {
          if i > 0 { assert Edge(g, p[i - 1], p[i - 1 + 1]); }
        }
      }
    }
  }

  lemma LastVisit(p: seq<Package>, a: Package) returns (k: nat)
    requires p != [] && p[0] == a
    ensures k < |p| && p[k] == a
    ensures forall i :: k < i < |p| ==> p[i] != a
  {
    k := |p| - 1;
    while p[k] != a
      invariant 0 <= k < |p|
      invariant forall i :: k < i < |p| ==> p[i] != a
      decreases k
    {
      k := k - 1;
    }
  }

  lemma ReachTransitive(g: Graph, a: Package, b: Package, c: Package)
    requires Reach(g, a, b, {}) && Reach(g, b, c, {})
    ensures Reach(g, a, c, {})
  {
    var p :| IsPath(g, p, a, b, {});
    var q :| IsPath(g, q, b, c, {});
    var r := p + q[1..];
    assert IsPath(g, r, a, c, {}) by {
      forall i | 0 <= i < |r| - 1 ensures Edge(g, r[i], r[i + 1]) {
        if i < |p| - 1 {
          assert Edge(g, p[i], p[i + 1]);
        } else {
          var m := i - (|p| - 1);
          assert r[i] == q[m] && r[i + 1] == q[m + 1];
          assert Edge(g, q[m], q[m + 1]);
        }
      }
    }
  }

  // ---------- trails ----------

  /** A trail from a either stops there or goes on to a dependency of a: to one on
      the path, where it ends, or along a trail from the new one. */
  lemma TrailStep(g: Graph, w: seq<Package>, a: Package, avoid: set<Package>)
    requires a !in avoid
    ensures IsTrail(g, w, a, avoid) <==>
            w == [a] ||
            (|w| > 1 && w[0] == a && Edge(g, a, w[1]) &&
             (if w[1] in avoid + {a} then |w| == 2 else IsTrail(g, w[1..], w[1], avoid + {a})))
  {
    if IsTrail(g, w, a, avoid) && |w| > 1 {
      assert Edge(g, w[0], w[0 + 1]);
      var v := w[1..];
      assert forall i :: 0 <= i < |w| - 1 ==> w[..|w| - 1][i] == w[i];
      forall i | 0 <= i < |v| - 1 ensures v[i] !in avoid + {a} {
        assert w[..|w| - 1][i + 1] == v[i];
        assert w[..|w| - 1][0] != w[..|w| - 1][i + 1];
        assert w[..|w| - 1][i + 1] in w[..|w| - 1];
      }
      if w[1] in avoid + {a} {
        if |w| > 2 { assert false; }
      } else {
        assert IsTrail(g, v, w[1], avoid + {a}) by {
          assert IsWalk(g, v) by {
            forall i | 0 <= i < |v| - 1 ensures Edge(g, v[i], v[i + 1]) {
              assert Edge(g, w[i + 1], w[i + 1 + 1]);
            }
          }
          forall i, j | 0 <= i < j < |v| - 1 ensures v[i] != v[j] {
            assert w[..|w| - 1][i + 1] != w[..|w| - 1][j + 1];
          }
          forall x | x in v[..|v| - 1] ensures x !in avoid + {a} {
            var i :| 0 <= i < |v| - 1 && v[..|v| - 1][i] == x;
            assert v[i] == x;
          }
        }
      }
    }
    if |w| > 1 && w[0] == a && Edge(g, a, w[1]) {
      if w[1] in avoid + {a} && |w| == 2 {
        assert w[..1] == [a];
        assert IsTrail(g, w, a, avoid);
      } else if w[1] !in avoid + {a} && IsTrail(g, w[1..], w[1], avoid + {a}) {
        TrailCons(g, w, a, avoid);
      }
    }
  }

  lemma TrailCons(g: Graph, w: seq<Package>, a: Package, avoid: set<Package>)
    requires |w| > 1 && w[0] == a && a !in avoid && Edge(g, a, w[1])
    requires IsTrail(g, w[1..], w[1], avoid + {a})
    ensures IsTrail(g, w, a, avoid)
  {
    var v := w[1..];
    var u := w[..|w| - 1];
    assert forall i :: 0 < i < |u| ==> u[i] == v[..|v| - 1][i - 1];
    assert IsWalk(g, w) by {
      forall i | 0 <= i < |w| - 1 ensures Edge(g, w[i], w[i + 1]) {
        if i > 0 { assert Edge(g, v[i - 1], v[i - 1 + 1]); }
      }
    }
    forall i, j | 0 <= i < j < |u| ensures u[i] != u[j] {
      assert u[j] in v[..|v| - 1];
      if i > 0 { assert v[..|v| - 1][i - 1] != v[..|v| - 1][j - 1]; }
    }
    forall x | x in u ensures x !in avoid {
      var i :| 0 <= i < |u| && u[i] == x;
      if i > 0 { assert u[i] in v[..|v| - 1]; }
    }
  }

  /** The lines are exactly the trails from pkg, each behind the given trail, and
      none carries the circular mark. */
  ghost predicate PrintsTrails(g: Graph, ls: seq<Line>, trail: seq<Package>, pkg: Package, avoid: set<Package>) {
    && (forall l :: l in ls ==> !l.circular && IsTrailLine(g, l, trail, pkg, avoid))
    && (forall w :: IsTrail(g, w, pkg, avoid) ==> HasTrail(ls, trail + w))
  }

  ghost predicate IsTrailLine(g: Graph, l: Line, trail: seq<Package>, pkg: Package, avoid: set<Package>) {
    && trail <= l.trail && IsTrail(g, l.trail[|trail|..], pkg, avoid)
    && l.pkg == l.trail[|l.trail| - 1]
  }

  ghost predicate HasTrail(ls: seq<Line>, t: seq<Package>) {
    exists l :: l in ls && l.trail == t
  }

  /** w follows one of the given dependencies: a single step onto the path, or a
      trail off it. */
  ghost predicate IsTail(g: Graph, w: seq<Package>, ds: seq<Package>, path: set<Package>) {
    && w != [] && w[0] in ds
    && if w[0] in path then |w| == 1 else IsTrail(g, w, w[0], path)
  }

  ghost predicate PrintsVia(g: Graph, ls: seq<Line>, trail: seq<Package>, ds: seq<Package>, path: set<Package>) {
    && (forall l :: l in ls ==> !l.circular && trail <= l.trail && IsTail(g, l.trail[|trail|..], ds, path)
                                && l.pkg == l.trail[|l.trail| - 1])
    && (forall w :: IsTail(g, w, ds, path) ==> HasTrail(ls, trail + w))
  }

  ghost predicate ReachVia(g: Graph, ds: seq<Package>, v: Package, path: set<Package>) {
    exists d :: d in ds && d !in path && Reach(g, d, v, path)
  }

  lemma SmallerSet<T>(a: set<T>, b: set<T>)
    requires a < b
    ensures |a| < |b|
  {
    var x :| x in b && x !in a;
    assert a + (b - a) == b;
    assert x in b - a;
  }

  lemma ViaMore(g: Graph, xs: seq<Line>, ys: seq<Line>, trail: seq<Package>, ds: seq<Package>, d: Package,
                path: set<Package>)
    requires PrintsVia(g, xs, trail, ds, path)
    requires if d in path then ys != [] && (forall l :: l in ys ==> !l.circular && l.pkg == d && l.trail == trail + [d])
             else PrintsTrails(g, ys, trail, d, path)
    ensures PrintsVia(g, xs + ys, trail, ds + [d], path)
  {
    forall w | IsTail(g, w, ds + [d], path) ensures HasTrail(xs + ys, trail + w) {
      if w[0] in ds {
        assert HasTrail(xs, trail + w);
      } else if d in path {
        assert w == [d] && ys[0] in xs + ys;
      } else {
        assert HasTrail(ys, trail + w);
      }
    }
    forall l | l in xs + ys
      ensures !l.circular && trail <= l.trail && IsTail(g, l.trail[|trail|..], ds + [d], path)
              && l.pkg == l.trail[|l.trail| - 1]
    {
      if l in xs {
      } else if d in path {
        assert l.trail[|trail|..] == [d];
      } else {
        assert IsTrailLine(g, l, trail, d, path);
      }
    }
  }

  lemma TreeTrails(g: Graph, root: Line, ls: seq<Line>, trail: seq<Package>, ds: seq<Package>, pkg: Package,
                   avoid: set<Package>)
    requires pkg !in avoid
    requires forall d :: d in ds <==> Edge(g, pkg, d)
    requires !root.circular && root.pkg == pkg && root.trail == trail + [pkg]
    requires PrintsVia(g, ls, trail + [pkg], ds, avoid + {pkg})
    ensures PrintsTrails(g, [root] + ls, trail, pkg, avoid)
  {
    forall w | IsTrail(g, w, pkg, avoid) ensures HasTrail([root] + ls, trail + w) {
      TrailStep(g, w, pkg, avoid);
      if w == [pkg] {
        assert root in [root] + ls;
      } else {
        assert w == [pkg] + w[1..];
        assert HasTrail(ls, trail + [pkg] + w[1..]);
        assert trail + [pkg] + w[1..] == trail + w;
      }
    }
    forall l | l in [root] + ls ensures !l.circular && IsTrailLine(g, l, trail, pkg, avoid) {
      var w := l.trail[|trail|..];
      TrailStep(g, w, pkg, avoid);
      if l == root {
      } else {
        assert l in ls;
        assert w[1..] == l.trail[|trail + [pkg]|..];
        assert w[0] == pkg;
      }
    }
  }

  /** The walk from pkg adds to visited what pkg reaches off the path, no more. */
  ghost predicate VisitsReachable(g: Graph, before: set<Package>, after: set<Package>, pkg: Package, path: set<Package>)
  {
    forall v :: v in after <==> v in before || Reach(g, pkg, v, path)
  }

  ghost predicate VisitsVia(g: Graph, before: set<Package>, after: set<Package>, pkg: Package, ds: seq<Package>,
                            path: set<Package>)
  {
    forall v :: v in after <==> v in before || v == pkg || ReachVia(g, ds, v, path)
  }

  lemma NothingYet(g: Graph, before: set<Package>, trail: seq<Package>, pkg: Package, path: set<Package>)
    ensures VisitsVia(g, before, before + {pkg}, pkg, [], path)
    ensures PrintsVia(g, [], trail, [], path)
  {
  }

  lemma VisitsMore(g: Graph, before: set<Package>, mid: set<Package>, after: set<Package>, pkg: Package,
                   ds: seq<Package>, d: Package, path: set<Package>)
    requires VisitsVia(g, before, mid, pkg, ds, path)
    requires if d in path then after == mid else VisitsReachable(g, mid, after, d, path)
    ensures VisitsVia(g, before, after, pkg, ds + [d], path)
  {
    forall v
      ensures ReachVia(g, ds + [d], v, path) <==> ReachVia(g, ds, v, path) || (d !in path && Reach(g, d, v, path))
    {
      if ReachVia(g, ds, v, path) {
        var e :| e in ds && e !in path && Reach(g, e, v, path);
        assert e in ds + [d];
      } else if d !in path && Reach(g, d, v, path) {
        assert d in ds + [d];
      }
    }
  }

  lemma VisitsAll(g: Graph, before: set<Package>, after: set<Package>, pkg: Package, ds: seq<Package>,
                  avoid: set<Package>)
    requires pkg !in avoid
    requires forall d :: d in ds <==> Edge(g, pkg, d)
    requires VisitsVia(g, before, after, pkg, ds, avoid + {pkg})
    ensures VisitsReachable(g, before, after, pkg, avoid)
  {
    forall v ensures v in after <==> v in before || Reach(g, pkg, v, avoid) {
      ReachStep(g, pkg, v, avoid);
    }
  }

  /** How many packages the walk from pkg may still put on the path. */
  ghost function Room(g: Graph, pkg: Package, path: set<Package>): nat {
    |Nodes(g) + {pkg} - path|
  }

  lemma MeasureDrops(g: Graph, pkg: Package, dep: Package, path: set<Package>)
    requires Edge(g, pkg, dep) && pkg !in path
    ensures Room(g, dep, path + {pkg}) < Room(g, pkg, path)
  {
    assert pkg in Nodes(g) + {pkg} - path;
    SmallerSet(Nodes(g) + {dep} - (path + {pkg}), Nodes(g) + {pkg} - path);
  }

  ghost predicate FromAny(g: Graph, roots: seq<Package>, v: Package) {
    exists p :: p in roots && Reach(g, p, v, {})
  }

  lemma TrailEndReached(g: Graph, l: Line, pkg: Package)
    requires IsTrailLine(g, l, [], pkg, {})
    ensures Reach(g, pkg, l.pkg, {})
  {
    assert l.trail[0..] == l.trail;
    assert IsPath(g, l.trail, pkg, l.pkg, {});
  }

  // ---------- what is printed ----------

  /** The dependency slices as they stand once sorted. */
  function SlicesOf(deps: map<Package, seq<Package>>): map<Package, seq<Package>> {
    map k | k in deps :: Sort(deps[k], StringLe)
  }

  function Slice(slices: map<Package, seq<Package>>, pkg: Package): seq<Package> {
    if pkg in slices then slices[pkg] else []
  }

  function Indent(prefix: string, last: bool): string {
    prefix + if last then "└── " else "├── "
  }

  lemma SliceEdge(slices: map<Package, seq<Package>>, pkg: Package, dep: Package)
    requires dep in Slice(slices, pkg)
    ensures Edge(GraphOf(slices), pkg, dep)
  {
  }

  lemma SliceEdges(slices: map<Package, seq<Package>>, pkg: Package)
    ensures forall d :: d in Slice(slices, pkg) <==> Edge(GraphOf(slices), pkg, d)
  {
  }

  /** The lines of the tree below pkg, in order; path holds the packages above it. */
  ghost function Tree(slices: map<Package, seq<Package>>, pkg: Package, prefix: string, trail: seq<Package>,
                      path: set<Package>)
    : seq<Line>
    requires pkg !in path
    decreases Room(GraphOf(slices), pkg, path), 1, 0
  {
    assert path + {pkg} - {pkg} == path;
    [Line(prefix, pkg, false, trail + [pkg])]
      + Below(slices, pkg, prefix, trail + [pkg], path + {pkg}, |Slice(slices, pkg)|)
  }

  /** The lines for the first n dependencies of pkg, which is on the path itself. */
  ghost function Below(slices: map<Package, seq<Package>>, pkg: Package, prefix: string, trail: seq<Package>,
                       path: set<Package>, n: nat): seq<Line>
    requires pkg in path && n <= |Slice(slices, pkg)|
    decreases Room(GraphOf(slices), pkg, path - {pkg}), 0, n
  {
    if n == 0 then []
    else
      var dep, indent := Slice(slices, pkg)[n - 1], Indent(prefix, n == |Slice(slices, pkg)|);
      Below(slices, pkg, prefix, trail, path, n - 1) +
        if dep in path then [Line(indent, dep, false, trail + [dep])]
        else
          assert path - {pkg} + {pkg} == path;
          MeasureDrops(GraphOf(slices), pkg, dep, path - {pkg});
          Tree(slices, dep, indent, trail, path)
  }

  lemma TreeIs(slices: map<Package, seq<Package>>, pkg: Package, prefix: string, trail: seq<Package>,
               path: set<Package>, before: seq<Line>)
    requires pkg !in path
    ensures before + [Line(prefix, pkg, false, trail + [pkg])]
              + Below(slices, pkg, prefix, trail + [pkg], path + {pkg}, |Slice(slices, pkg)|)
         == before + Tree(slices, pkg, prefix, trail, path)
  {
    AppendAssoc(before, [Line(prefix, pkg, false, trail + [pkg])],
                Below(slices, pkg, prefix, trail + [pkg], path + {pkg}, |Slice(slices, pkg)|));
  }

  lemma BelowNone(slices: map<Package, seq<Package>>, pkg: Package, prefix: string, trail: seq<Package>,
                  path: set<Package>, before: seq<Line>)
    requires pkg in path
    ensures before + Below(slices, pkg, prefix, trail, path, 0) == before
  {
  }

  lemma BelowMore(slices: map<Package, seq<Package>>, pkg: Package, prefix: string, trail: seq<Package>,
                  path: set<Package>, n: nat, before: seq<Line>, added: seq<Line>)
    requires pkg in path && n < |Slice(slices, pkg)|
    requires var dep, indent := Slice(slices, pkg)[n], Indent(prefix, n == |Slice(slices, pkg)| - 1);
             added == if dep in path then [Line(indent, dep, false, trail + [dep])]
                      else Tree(slices, dep, indent, trail, path)
    ensures before + Below(slices, pkg, prefix, trail, path, n) + added
         == before + Below(slices, pkg, prefix, trail, path, n + 1)
  {
    AppendAssoc(before, Below(slices, pkg, prefix, trail, path, n), added);
  }

  /** The lines of the tree are exactly those of the trails from pkg off the path. */
  lemma {:induction false} TreePrints(slices: map<Package, seq<Package>>, pkg: Package, prefix: string,
                                      trail: seq<Package>, path: set<Package>)
    requires pkg !in path
    ensures PrintsTrails(GraphOf(slices), Tree(slices, pkg, prefix, trail, path), trail, pkg, path)
    decreases Room(GraphOf(slices), pkg, path), 1, 0
  {
    assert path + {pkg} - {pkg} == path;
    var slice := Slice(slices, pkg);
    BelowPrints(slices, pkg, prefix, trail + [pkg], path + {pkg}, |slice|);
    assert slice[..|slice|] == slice;
    TreeTrails(GraphOf(slices), Line(prefix, pkg, false, trail + [pkg]),
               Below(slices, pkg, prefix, trail + [pkg], path + {pkg}, |slice|), trail, slice, pkg, path);
  }

  lemma {:induction false} BelowPrints(slices: map<Package, seq<Package>>, pkg: Package, prefix: string,
                                       trail: seq<Package>, path: set<Package>, n: nat)
    requires pkg in path && n <= |Slice(slices, pkg)|
    ensures PrintsVia(GraphOf(slices), Below(slices, pkg, prefix, trail, path, n), trail, Slice(slices, pkg)[..n], path)
    decreases Room(GraphOf(slices), pkg, path - {pkg}), 0, n
  {
    hide PrintsVia, PrintsTrails, GraphOf, Tree, Room;
    var g, slice := GraphOf(slices), Slice(slices, pkg);
    if n == 0 {
      NothingYet(g, {}, trail, pkg, path);
    } else {
      BelowPrints(slices, pkg, prefix, trail, path, n - 1);
      TakeMore(slice, n - 1);
      var dep, indent := slice[n - 1], Indent(prefix, n == |slice|);
      if dep in path {
        ViaMore(g, Below(slices, pkg, prefix, trail, path, n - 1), [Line(indent, dep, false, trail + [dep])], trail,
                slice[..n - 1], dep, path);
      } else {
        assert path - {pkg} + {pkg} == path;
        SliceEdge(slices, pkg, dep);
        MeasureDrops(g, pkg, dep, path - {pkg});
        TreePrints(slices, dep, indent, trail, path);
        ViaMore(g, Below(slices, pkg, prefix, trail, path, n - 1), Tree(slices, dep, indent, trail, path), trail,
                slice[..n - 1], dep, path);
      }
    }
  }

  ghost predicate NoDuplicates(slices: map<Package, seq<Package>>) {
    forall k :: k in slices ==> Distinct(slices[k])
  }

  ghost predicate OncePerTrail(ls: seq<Line>) {
    forall i, j :: 0 <= i < j < |ls| ==> ls[i].trail != ls[j].trail
  }

  lemma OnceMore(xs: seq<Line>, ys: seq<Line>)
    requires OncePerTrail(xs) && OncePerTrail(ys) && forall x, y :: x in xs && y in ys ==> x.trail != y.trail
    ensures OncePerTrail(xs + ys)
  {
  }

  /** When no slice lists a package twice, each trail has exactly one line. */
  lemma {:induction false} TreeOnce(slices: map<Package, seq<Package>>, pkg: Package, prefix: string,
                                    trail: seq<Package>, path: set<Package>)
    requires pkg !in path && NoDuplicates(slices)
    ensures OncePerTrail(Tree(slices, pkg, prefix, trail, path))
    decreases Room(GraphOf(slices), pkg, path), 1, 0
  {
    hide PrintsVia, GraphOf;
    assert path + {pkg} - {pkg} == path;
    var slice := Slice(slices, pkg);
    var below := Below(slices, pkg, prefix, trail + [pkg], path + {pkg}, |slice|);
    BelowOnce(slices, pkg, prefix, trail + [pkg], path + {pkg}, |slice|);
    BelowPrints(slices, pkg, prefix, trail + [pkg], path + {pkg}, |slice|);
    ViaStarts(GraphOf(slices), below, trail + [pkg], slice[..|slice|], path + {pkg});
    OnceMore([Line(prefix, pkg, false, trail + [pkg])], below);
  }

  lemma ViaStarts(g: Graph, ls: seq<Line>, trail: seq<Package>, ds: seq<Package>, path: set<Package>)
    requires PrintsVia(g, ls, trail, ds, path)
    ensures forall l :: l in ls ==> |l.trail| > |trail| && l.trail[|trail|] in ds
  {
    forall l | l in ls ensures |l.trail| > |trail| && l.trail[|trail|] in ds {
      assert l.trail[|trail|..] != [] && l.trail[|trail|] == l.trail[|trail|..][0];
    }
  }

  lemma TreeStarts(g: Graph, ls: seq<Line>, trail: seq<Package>, pkg: Package, avoid: set<Package>)
    requires PrintsTrails(g, ls, trail, pkg, avoid)
    ensures forall l :: l in ls ==> |l.trail| > |trail| && l.trail[|trail|] == pkg
  {
    forall l | l in ls ensures |l.trail| > |trail| && l.trail[|trail|] == pkg {
      assert IsTrailLine(g, l, trail, pkg, avoid);
      assert l.trail[|trail|..] != [] && l.trail[|trail|] == l.trail[|trail|..][0];
    }
  }

  lemma {:induction false} BelowOnce(slices: map<Package, seq<Package>>, pkg: Package, prefix: string,
                                     trail: seq<Package>, path: set<Package>, n: nat)
    requires pkg in path && n <= |Slice(slices, pkg)| && NoDuplicates(slices)
    ensures OncePerTrail(Below(slices, pkg, prefix, trail, path, n))
    decreases Room(GraphOf(slices), pkg, path - {pkg}), 0, n
  {
    if n > 0 {
      hide PrintsVia, PrintsTrails, GraphOf, Tree, Room;
      var g, slice := GraphOf(slices), Slice(slices, pkg);
      var dep, indent := slice[n - 1], Indent(prefix, n == |slice|);
      var xs := Below(slices, pkg, prefix, trail, path, n - 1);
      BelowOnce(slices, pkg, prefix, trail, path, n - 1);
      BelowPrints(slices, pkg, prefix, trail, path, n - 1);
      ViaStarts(g, xs, trail, slice[..n - 1], path);
      assert dep !in slice[..n - 1];
      if dep in path {
        OnceMore(xs, [Line(indent, dep, false, trail + [dep])]);
      } else {
        assert path - {pkg} + {pkg} == path;
        SliceEdge(slices, pkg, dep);
        MeasureDrops(g, pkg, dep, path - {pkg});
        TreeOnce(slices, dep, indent, trail, path);
        TreePrints(slices, dep, indent, trail, path);
        TreeStarts(g, Tree(slices, dep, indent, trail, path), trail, dep, path);
        OnceMore(xs, Tree(slices, dep, indent, trail, path));
      }
    }
  }

  lemma SlicesSameGraph(deps: map<Package, seq<Package>>)
    ensures GraphOf(SlicesOf(deps)) == GraphOf(deps)
  {
    forall k | k in deps ensures Elements(Sort(deps[k], StringLe)) == Elements(deps[k]) {
      SameElements(Sort(deps[k], StringLe), deps[k]);
    }
  }

  /** Sorting one slice where it is stored changes no sorted slice. */
  lemma SortKeepsSlices(deps: map<Package, seq<Package>>, pkg: Package)
    requires pkg in deps
    ensures SlicesOf(deps[pkg := Sort(deps[pkg], StringLe)]) == SlicesOf(deps)
    ensures SortedBy(Sort(deps[pkg], StringLe), StringLe)
  {
    hide Sort, SortedBy, StringLe;
    StringLeTotal();
    SortSorted(deps[pkg], StringLe);
    SortOfSorted(Sort(deps[pkg], StringLe), StringLe);
  }

  /** The trees of those roots that no earlier root reaches. */
  ghost function Forest(slices: map<Package, seq<Package>>, roots: seq<Package>): seq<Line> {
    if roots == [] then []
    else
      var n := |roots| - 1;
      Forest(slices, roots[..n]) +
        if FromAny(GraphOf(slices), roots[..n], roots[n]) then [] else Tree(slices, roots[n], "", [], {})
  }

  /** No line of the forest carries the circular mark, and its packages are those reached. */
  lemma {:induction false} ForestPrints(slices: map<Package, seq<Package>>, roots: seq<Package>)
    ensures forall l :: l in Forest(slices, roots) ==> !l.circular && FromAny(GraphOf(slices), roots, l.pkg)
  {
    if roots != [] {
      var n, g := |roots| - 1, GraphOf(slices);
      ForestPrints(slices, roots[..n]);
      TreePrints(slices, roots[n], "", [], {});
      forall l | l in Forest(slices, roots) ensures !l.circular && FromAny(g, roots, l.pkg) {
        if l in Forest(slices, roots[..n]) {
          var p :| p in roots[..n] && Reach(g, p, l.pkg, {});
          assert p in roots;
        } else {
          TrailEndReached(g, l, roots[n]);
          assert roots[n] in roots;
        }
      }
    }
  }

  // ---------- the walk ----------

  class Walk {
    var deps: map<Package, seq<Package>>  // stats.Dependencies; its slices are sorted in place
    var visited: set<Package>
    var pathVisited: set<Package>
    var lines: seq<Line>

    constructor (deps: map<Package, seq<Package>>)
      ensures this.deps == deps && visited == {} && pathVisited == {} && lines == []
    {
      this.deps, visited, pathVisited, lines := deps, {}, {}, [];
    }

    /** Prints the tree below pkg; the ghost trail names the packages on the path. */
    method PrintTree(pkg: Package, prefix: string, ghost trail: seq<Package>)
      modifies this
      ensures SlicesOf(deps) == old(SlicesOf(deps)) && pathVisited == old(pathVisited)
      ensures pkg in old(pathVisited) ==>
                visited == old(visited) && lines == old(lines) + [Line(prefix, pkg, true, trail + [pkg])]
      ensures pkg !in old(pathVisited) ==>
                && lines == old(lines) + Tree(SlicesOf(deps), pkg, prefix, trail, old(pathVisited))
                && VisitsReachable(GraphOf(old(deps)), old(visited), visited, pkg, old(pathVisited))
      decreases Room(GraphOf(SlicesOf(deps)), pkg, pathVisited)
    {
      hide *;
      if pkg in pathVisited {
        lines := lines + [Line(prefix, pkg, true, trail + [pkg])];
        return;
      }
      SlicesSameGraph(deps);
      ghost var slices, l0, v0, p0, below := SlicesOf(deps), lines, visited, pathVisited, trail + [pkg];
      ghost var g, path := GraphOf(slices), p0 + {pkg};
      lines := lines + [Line(prefix, pkg, false, trail + [pkg])];
      visited := visited + {pkg};
      pathVisited := pathVisited + {pkg};
      ghost var head := lines;

      var slice := SortDeps(pkg);
      NothingYet(g, v0, below, pkg, path);
      BelowNone(slices, pkg, prefix, below, path, head);
      for i := 0 to |slice|
        invariant SlicesOf(deps) == slices && pathVisited == path
        invariant lines == head + Below(slices, pkg, prefix, below, path, i)
        invariant VisitsVia(g, v0, visited, pkg, slice[..i], path)
      {
        ghost var seen := visited;
        var dep, newPrefix := slice[i], Indent(prefix, i == |slice| - 1);
        ghost var added := [Line(newPrefix, dep, false, below + [dep])];
        if dep !in pathVisited {
          SliceEdge(slices, pkg, dep);
          MeasureDrops(g, pkg, dep, p0);
          added := Tree(slices, dep, newPrefix, below, path);
          SlicesSameGraph(deps);
          PrintTree(dep, newPrefix, below);
        } else {
          lines := lines + [Line(newPrefix, dep, false, below + [dep])];
        }
        BelowMore(slices, pkg, prefix, below, path, i, head, added);
        TakeMore(slice, i);
        VisitsMore(g, v0, seen, visited, pkg, slice[..i], dep, path);
      }
      assert slice[..|slice|] == slice;
      SliceEdges(slices, pkg);
      VisitsAll(g, v0, visited, pkg, slice, p0);
      TreeIs(slices, pkg, prefix, trail, p0, l0);
      pathVisited := pathVisited - {pkg};
    }

    /** Sorts the slice of pkg where it is stored; an absent one reads as empty. */
    method SortDeps(pkg: Package) returns (slice: seq<Package>)
      modifies this`deps
      ensures SlicesOf(deps) == old(SlicesOf(deps))
      ensures slice == Slice(SlicesOf(deps), pkg)
      ensures pkg in old(deps) ==> deps == old(deps)[pkg := slice] && SortedBy(slice, StringLe)
      ensures pkg !in old(deps) ==> deps == old(deps)
    {
      slice := [];
      if pkg in deps {
        slice := Sort(deps[pkg], StringLe);
        SortKeepsSlices(deps, pkg);
        deps := deps[pkg := slice];
      }
    }

    /** printDependencyGraph: one tree for each package not yet printed. */
    method PrintGraph(packages: seq<Package>)
      requires pathVisited == {} && visited == {}
      modifies this
      ensures SlicesOf(deps) == old(SlicesOf(deps)) && pathVisited == {}
      ensures lines == old(lines) + Forest(SlicesOf(deps), Sort(packages, StringLe))
      ensures forall v :: v in visited <==> FromAny(GraphOf(old(deps)), packages, v)
    {
      hide Tree, SlicesOf, GraphOf;
      SlicesSameGraph(deps);
      var sorted := Sort(packages, StringLe);
      SameElements(sorted, packages);
      ghost var slices, l0 := SlicesOf(deps), lines;
      ghost var g := GraphOf(slices);
      for i := 0 to |sorted|
        invariant SlicesOf(deps) == slices && pathVisited == {}
        invariant lines == l0 + Forest(slices, sorted[..i])
        invariant forall v :: v in visited <==> FromAny(g, sorted[..i], v)
      {
        var pkg := sorted[i];
        ghost var seen := visited;
        TakeMore(sorted, i);
        assert sorted[..i + 1][..i] == sorted[..i];
        if pkg !in visited {
          SlicesSameGraph(deps);
          PrintTree(pkg, "", []);
          AppendAssoc(l0, Forest(slices, sorted[..i]), Tree(slices, pkg, "", [], {}));
          assert VisitsReachable(g, seen, visited, pkg, {});
        } else {
          forall v | Reach(g, pkg, v, {}) ensures v in visited {
            var q :| q in sorted[..i] && Reach(g, q, pkg, {});
            ReachTransitive(g, q, pkg, v);
            assert FromAny(g, sorted[..i], v);
          }
        }
        forall v ensures FromAny(g, sorted[..i + 1], v) <==> FromAny(g, sorted[..i], v) || Reach(g, pkg, v, {}) {
        }
      }
      assert sorted[..|sorted|] == sorted;
      forall v ensures FromAny(g, sorted, v) <==> FromAny(g, packages, v) {
        assert forall p :: p in sorted <==> p in Elements(packages);
      }
    }
  }
}
