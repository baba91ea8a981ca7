/** Mounting routers: base paths are handed down when a router becomes reachable from the app. */
module Mounting {
  import opened Options

  /** A route: its path, the base path it was given, whether it is matched as a pattern, and that pattern's source. */
  datatype Route = Route(path: string, basePath: Option<string>, regex: bool, pattern: Option<string>)

  function Join(base: string, mount: string): string {
    if base == "" && mount == "/" then "" else base + mount
  }

  /** What a route should be in a router with a given base path. */
  function Settled(path: string, base: Option<string>): Route {
    var regex := ':' in path || (base.Some? && ':' in base.value);
    Route(path, base, regex, if base.Some? && regex then Some(base.value + path) else None)
  }

  /**
   * The base path of a router, from the base path of the router it is mounted on, if it is mounted on one
   * that has one.
   */
  function PathUnder(isBase: bool, above: Option<string>, mountPath: string): Option<string> {
    if isBase then Some("") else if above.None? then None else Some(Join(above.value, mountPath))
  }

  class Router {
    const isBase: bool
    /** A router is mounted on routers of a higher level only: the tree has no cycle. */
    ghost const level: nat
    var basePath: Option<string>
    var mountPath: string
    var routes: seq<Route>
    var routers: seq<Router>
    ghost var parent: Router?
    /** The paths of the routes. */
    ghost var declared: seq<string>

    /** expressRouter, or express() for the app's own router. */
    constructor (isBase: bool, ghost level: nat)
      ensures this.isBase == isBase && this.level == level && parent == null && routers == [] && declared == []
      ensures RoutesSettled()
      ensures basePath == if isBase then Some("") else None
    {
      this.isBase, this.level := isBase, level;
      basePath := if isBase then Some("") else None;
      mountPath, routes, routers, parent, declared := "", [], [], null, [];
    }

    ghost predicate RoutesSettled()
      reads this`routes, this`basePath, this`declared
    {
      |routes| == |declared| && forall i :: 0 <= i < |routes| ==> routes[i] == Settled(declared[i], basePath)
    }

    /** addRouteHandler, before the router is mounted or on the app's own router. */
    method AddRouteHandler(path: string)
      requires RoutesSettled() && (isBase ==> basePath == Some("")) && (!isBase ==> basePath.None?)
      modifies this`routes, this`declared
      ensures RoutesSettled() && declared == old(declared) + [if !isBase && path == "/" then "" else path]
    {
      var own := if !isBase && path == "/" then "" else path;
      var regex := ':' in path;
      var route := Route(own, None, regex, None);
      if isBase {
        route := route.(basePath := basePath, pattern := if regex then Some(basePath.value + path) else None);
      }
      routes := routes + [route];
      declared := declared + [own];
    }

    /** The loop of mountTo over the routes. */
    method MountRoutes()
      requires basePath.Some? && |routes| == |declared|
      requires forall i :: 0 <= i < |routes| ==> routes[i] == Settled(declared[i], None)
      modifies this`routes
      ensures RoutesSettled()
    {
      for i := 0 to |routes|
        invariant |routes| == |old(routes)|
        invariant forall k :: 0 <= k < i ==> routes[k] == Settled(declared[k], basePath)
        invariant forall k :: i <= k < |routes| ==> routes[k] == old(routes)[k]
      {
        var route := routes[i];
        route := route.(basePath := basePath, regex := route.regex || ':' in basePath.value);
        if route.regex {
          route := route.(pattern := Some(basePath.value + route.path));
        }
        routes := routes[i := route];
      }
    }

    /** The routers mounted on this one. */
    ghost function Children(): set<Router>
      reads this`routers
    {
      set i | 0 <= i < |routers| :: routers[i]
    }

    /** The part of mountTo that gives this router and its routes their base path. */
    method Place(base: Router, ghost pool: set<Router>, ghost open: set<Router>)
      requires Linked(pool) && this in pool && this in open && parent == base && SettledBut(pool, open)
      requires base !in open && level < base.level && base.basePath.Some? && Children() !! open
      modifies this`basePath, this`routes
      ensures basePath.Some? && SettledBut(pool, open - {this} + Children())
    {
      assert forall c :: c in Children() ==> c in pool && c.parent == this;
      assert RoutesSettled();
      if base.basePath.value == "" && mountPath == "/" {
        basePath := Some("");
      } else {
        basePath := Some(base.basePath.value + mountPath);
      }
      MountRoutes();
      forall r | r in pool
          && r !in open - {this} + Children() ensures r.basePath == PathUnder(r.isBase, Above(r), r.mountPath) {
        if r != this {
          assert r.parent == this ==> r in routers && r in Children();
        }
      }
    }

    /** mountTo. */
    method MountTo(base: Router, ghost pool: set<Router>, ghost open: set<Router>)
      requires Linked(pool) && this in pool && this in open && parent == base && SettledBut(pool, open)
      requires base !in open && level < base.level
      requires forall n :: n in open ==> n in pool && n.parent != null && n.parent.level >= base.level
      modifies pool`basePath, pool`routes
      ensures SettledBut(pool, open - {this})
      decreases level, 1
    {
      if base.basePath.None? {
        return;
      }
      assert Children() !! open;
      Place(base, pool, open);
      MountRouters(pool, open - {this} + Children());
      assert open - {this} + Children() - Children() == open - {this};
    }

    /** Of the routers to be done, those mounted on this one from the `i`-th on are left. */
    ghost predicate Pending(open: set<Router>, i: nat, left: set<Router>)
      reads this`routers
    {
      && left <= open && open - left <= Children()
      && (forall j :: i <= j < |routers| ==> routers[j] in left)
      && (forall j :: 0 <= j < i && j < |routers| ==> routers[j] !in left)
    }

    lemma PendingStep(pool: set<Router>, open: set<Router>, i: nat, left: set<Router>)
      requires Linked(pool) && this in pool && i < |routers| && Pending(open, i, left)
      ensures Pending(open, i + 1, left - {routers[i]})
    {
      assert routers[i] in Children();
    }

    /** The loop of mountTo over the routers mounted on this one. */
    method MountRouters(ghost pool: set<Router>, ghost open: set<Router>)
      requires Linked(pool) && this in pool && SettledBut(pool, open) && this !in open && Children() <= open
      requires forall n :: n in open ==> n in pool && n.parent != null && n.parent.level >= level
      modifies pool`basePath, pool`routes
      ensures SettledBut(pool, open - Children())
      decreases level, 0
    {
      ghost var left := open;
      assert Pending(open, 0, left);
      for i := 0 to |routers|
        invariant Pending(open, i, left) && SettledBut(pool, left)
      {
        PendingStep(pool, open, i, left);
        assert routers[i] in left && routers[i].parent == this && left <= open && routers[i] in pool;
        hide Pending, SettledBut, Linked;
        routers[i].MountTo(this, pool, left);
        left := left - {routers[i]};
      }
      assert left == open - Children();
    }

    /** useRouter. */
    method UseRouter(mountPath: string, child: Router, ghost pool: set<Router>)
      requires Linked(pool) && SettledBut(pool, {}) && this in pool && child in pool
      requires child.parent == null && !child.isBase && child.level < level
      modifies pool`routers, pool`parent, pool`mountPath, pool`basePath, pool`routes
      ensures Linked(pool) && SettledBut(pool, {})
      ensures child.parent == this && child.mountPath == mountPath
      ensures forall r :: r in pool && r != child ==> r.parent == old(r.parent) && r.mountPath == old(r.mountPath)
    {
      Attach(mountPath, child, pool);
      child.MountTo(this, pool, {child});
    }

    /** Records a router as mounted on this one. */
    method Attach(mountPath: string, child: Router, ghost pool: set<Router>)
      requires Linked(pool) && SettledBut(pool, {}) && this in pool && child in pool
      requires child.parent == null && !child.isBase && child.level < level
      modifies this`routers, child`mountPath, child`parent
      ensures Linked(pool) && SettledBut(pool, {child})
      ensures child.parent == this && child.mountPath == mountPath
    {
      child.mountPath := mountPath;
      AttachLink(child, pool);
      hide Linked;
    }

    method AttachLink(child: Router, ghost pool: set<Router>)
      requires Linked(pool) && this in pool && child in pool
      requires child.parent == null && !child.isBase && child.level < level
      modifies this`routers, child`parent
      ensures Linked(pool) && child.parent == this
    {
      assert child !in routers;
      routers := routers + [child];
      child.parent := this;
    }
  }

  /** The routers of a pool and the links between them. */
  ghost predicate Linked(pool: set<Router>)
    reads pool`parent, pool`routers
  {
    forall r :: r in pool ==>
      && (r.parent != null ==> r.parent in pool && r in r.parent.routers && !r.isBase)
      && (forall i :: 0 <= i < |r.routers| ==>
            r.routers[i] in pool && r.routers[i].parent == r && r.routers[i].level < r.level)
      && (forall i, j :: 0 <= i < j < |r.routers| ==> r.routers[i] != r.routers[j])
  }

  /** The base path of the router that `r` is mounted on. */
  ghost function Above(r: Router): Option<string>
    reads r`parent, if r.parent == null then {} else {r.parent}
  {
    if r.parent == null then None else r.parent.basePath
  }

  /** Every router has the base path that follows from its parent's, but for those that are still to be done. */
  ghost predicate SettledBut(pool: set<Router>, open: set<Router>)
    requires Linked(pool)
    reads pool
  {
    && (forall r :: r in pool && r !in open ==> r.basePath == PathUnder(r.isBase, Above(r), r.mountPath))
    && (forall r :: r in pool && r in open ==> r.basePath.None?)
    && (forall r :: r in pool ==> r.RoutesSettled())
  }

  /** A call of useRouter. */
  datatype Use = Use(parent: Router, mountPath: string, child: Router)

  datatype Link = Link(parent: Router, mountPath: string)

  /** Which router is mounted where after some calls. */
  function LinksOf(uses: seq<Use>): map<Router, Link> {
    if uses == [] then map[]
    else
      var last := uses[|uses| - 1];
      LinksOf(uses[..|uses| - 1])[last.child := Link(last.parent, last.mountPath)]
  }

  /** Calls that build a tree: every router is mounted once, on one of a higher level. */
  ghost predicate Buildable(pool: set<Router>, uses: seq<Use>) {
    && (forall u :: u in uses ==>
          u.parent in pool && u.child in pool && !u.child.isBase && u.child.level < u.parent.level)
    && (forall i, j :: 0 <= i < j < |uses| ==> uses[i].child != uses[j].child)
  }

  /** Links go up, and no higher than `top`. */
  ghost predicate Upward(links: map<Router, Link>, top: nat) {
    forall r :: r in links ==> r.level < links[r].parent.level <= top
  }

  /** The base path that the links give a router: none if they do not lead to the app. */
  ghost function PathOf(links: map<Router, Link>, r: Router, top: nat): Option<string>
    requires Upward(links, top)
    decreases top - r.level
  {
    PathUnder(r.isBase,
              if r in links then PathOf(links, links[r].parent, top) else None,
              if r in links then links[r].mountPath else "")
  }

  ghost predicate Follows(pool: set<Router>, links: map<Router, Link>)
    reads pool`parent, pool`mountPath
  {
    forall r :: r in pool ==>
      if r in links then r.parent == links[r].parent && r.mountPath == links[r].mountPath else r.parent == null
  }

  lemma {:induction false} PathsFollow(pool: set<Router>, links: map<Router, Link>, r: Router, top: nat)
    requires Linked(pool) && SettledBut(pool, {}) && Follows(pool, links) && Upward(links, top) && r in pool
    ensures r.basePath == PathOf(links, r, top)
    decreases top - r.level
  {
    if r in links {
      PathsFollow(pool, links, links[r].parent, top);
    }
  }

  lemma {:induction false} LinksOfStep(uses: seq<Use>, i: nat)
    requires i < |uses|
    ensures LinksOf(uses[..i + 1]) == LinksOf(uses[..i])[uses[i].child := Link(uses[i].parent, uses[i].mountPath)]
  {
    assert uses[..i + 1][..i] == uses[..i];
  }

  /** A link comes from a call, and a call leaves a link. */
  lemma {:induction false} LinksOfIs(uses: seq<Use>, r: Router)
    ensures r in LinksOf(uses) ==>
              exists u :: u in uses && u.child == r && LinksOf(uses)[r] == Link(u.parent, u.mountPath)
    ensures forall u :: u in uses && u.child == r ==> r in LinksOf(uses)
    decreases |uses|
  {
    if uses != [] {
      var k := |uses| - 1;
      LinksOfIs(uses[..k], r);
      assert uses == uses[..k] + [uses[k]];
      if r in LinksOf(uses) {
        if r == uses[k].child {
          assert uses[k] in uses;
        } else {
          var u :| u in uses[..k] && u.child == r && LinksOf(uses[..k])[r] == Link(u.parent, u.mountPath);
          assert u in uses;
        }
      }
    }
  }

  lemma LinksUpward(pool: set<Router>, uses: seq<Use>, top: nat)
    requires Buildable(pool, uses) && (forall r :: r in pool ==> r.level <= top)
    ensures Upward(LinksOf(uses), top)
  {
    forall r | r in LinksOf(uses) ensures r.level < LinksOf(uses)[r].parent.level <= top {
      LinksOfIs(uses, r);
    }
  }

  lemma NotYetLinked(pool: set<Router>, uses: seq<Use>, i: nat)
    requires Buildable(pool, uses) && i < |uses|
    ensures uses[i].child !in LinksOf(uses[..i])
  {
    LinksOfIs(uses[..i], uses[i].child);
  }

  lemma SameLink(pool: set<Router>, uses: seq<Use>, others: seq<Use>, r: Router)
    requires Buildable(pool, uses) && forall u :: u in uses <==> u in others
    ensures r in LinksOf(uses) <==> r in LinksOf(others)
    ensures r in LinksOf(uses) ==> LinksOf(uses)[r] == LinksOf(others)[r]
  {
    LinksOfIs(uses, r);
    LinksOfIs(others, r);
    if r in LinksOf(uses) {
      var u :| u in uses && u.child == r && LinksOf(uses)[r] == Link(u.parent, u.mountPath);
      assert u in others;
      var v :| v in others && v.child == r && LinksOf(others)[r] == Link(v.parent, v.mountPath);
      assert v in uses;
    }
  }

  /** The order of the calls does not matter: calls that are a permutation of each other leave the same links. */
  lemma OrderIndependent(pool: set<Router>, uses: seq<Use>, others: seq<Use>)
    requires Buildable(pool, uses) && multiset(uses) == multiset(others)
    ensures LinksOf(uses) == LinksOf(others)
  {
    assert forall u :: u in uses <==> u in others by {
      assert forall u :: u in uses <==> u in multiset(uses);
      assert forall u :: u in others <==> u in multiset(others);
    }
    hide LinksOf, Buildable;
    var a, b := LinksOf(uses), LinksOf(others);
    assert forall r :: r in a ==> r in b && a[r] == b[r] by {
      forall r | r in a ensures r in b && a[r] == b[r] {
        SameLink(pool, uses, others, r);
      }
    }
    assert forall r :: r in b ==> r in a by {
      forall r | r in b ensures r in a {
        SameLink(pool, uses, others, r);
      }
    }
  }

  /** Calls that lead from the app's router down to another, each on the child of the one before. */
  ghost predicate Chain(uses: seq<Use>, chain: seq<Use>) {
    && chain != [] && chain[0].parent.isBase
    && (forall i :: 0 <= i < |chain| ==> chain[i] in uses)
    && (forall i :: 0 <= i < |chain| - 1 ==> chain[i + 1].parent == chain[i].child)
  }

  /** The mount paths of a chain, from the app down. */
  function Mounts(chain: seq<Use>): seq<string> {
    if chain == [] then [] else [chain[0].mountPath] + Mounts(chain[1..])
  }

  function Concat(paths: seq<string>): string {
    if paths == [] then "" else paths[0] + Concat(paths[1..])
  }

  /** "/" counts for nothing as long as the path is empty. */
  function Effective(paths: seq<string>): (r: seq<string>)
    ensures r != [] ==> r[0] != ""
  {
    if paths != [] && (paths[0] == "/" || paths[0] == "") then Effective(paths[1..]) else paths
  }

  /** The base path at the end of a chain, over its mount paths. */
  function ChainPath(chain: seq<Use>): string {
    Concat(Effective(Mounts(chain)))
  }

  lemma {:induction false} MountsLast(chain: seq<Use>, use: Use)
    ensures Mounts(chain + [use]) == Mounts(chain) + [use.mountPath]
    decreases |chain|
  {
    if chain == [] {
      assert [use][1..] == [];
    } else {
      assert (chain + [use])[1..] == chain[1..] + [use];
      MountsLast(chain[1..], use);
    }
  }

  lemma {:induction false} ConcatLast(paths: seq<string>, path: string)
    ensures Concat(paths + [path]) == Concat(paths) + path
    decreases |paths|
  {
    if paths == [] {
      assert [path][1..] == [];
      assert path + "" == path;
    } else {
      assert (paths + [path])[1..] == paths[1..] + [path];
      ConcatLast(paths[1..], path);
    }
  }

  lemma {:induction false} EffectiveLast(paths: seq<string>, path: string)
    ensures Effective(paths + [path])
         == if Effective(paths) != [] then Effective(paths) + [path] else if path == "/" || path == "" then []
             else [path]
    decreases |paths|
  {
    if paths == [] {
      assert [path][1..] == [];
    } else {
      assert (paths + [path])[1..] == paths[1..] + [path];
      EffectiveLast(paths[1..], path);
    }
  }

  /** One more call on a chain: its mount path is appended, unless it is "/" and the path is empty. */
  lemma {:induction false} JoinIsConcat(paths: seq<string>, path: string)
    ensures Join(Concat(Effective(paths)), path) == Concat(Effective(paths + [path]))
  {
    var front := Effective(paths);
    EffectiveLast(paths, path);
    ConcatLast(front, path);
    assert Concat([path]) == path + Concat([path][1..]) && path + "" == path;
  }

  /** The base path of a router at the end of a chain is the mount paths of the chain, from the app down. */
  lemma {:induction false} PathOfChain(pool: set<Router>, uses: seq<Use>, chain: seq<Use>, top: nat)
    requires Buildable(pool, uses) && Upward(LinksOf(uses), top) && Chain(uses, chain)
    ensures PathOf(LinksOf(uses), chain[|chain| - 1].child, top) == Some(ChainPath(chain))
    decreases |chain|
  {
    var links, k := LinksOf(uses), |chain| - 1;
    var last, front := chain[k], chain[..k];
    assert last in uses && chain == front + [last];
    LinksOfIs(uses, last.child);
    LinkOfUse(pool, uses, last);
    MountsLast(front, last);
    JoinIsConcat(Mounts(front), last.mountPath);
    if k > 0 {
      assert last.parent == front[k - 1].child;
      assert front[0] == chain[0];
      PathOfChain(pool, uses, front, top);
    }
    hide LinksOf, Mounts, Concat, Effective, Upward, Join;
    assert links[last.child] == Link(last.parent, last.mountPath) && last.child in links;
    if k == 0 {
      assert front == [] && PathOf(links, last.parent, top) == Some("");
      EmptyChain();
    }
  }

  lemma EmptyChain()
    ensures ChainPath([]) == ""
  {
  }

  /** The only call that mounts a router is the one whose link it has. */
  lemma LinkOfUse(pool: set<Router>, uses: seq<Use>, use: Use)
    requires Buildable(pool, uses) && use in uses
    ensures use.child in LinksOf(uses) && LinksOf(uses)[use.child] == Link(use.parent, use.mountPath)
  {
    LinksOfIs(uses, use.child);
    var u :| u in uses && u.child == use.child && LinksOf(uses)[use.child] == Link(u.parent, u.mountPath);
    var i: nat :| i < |uses| && uses[i] == u;
    var j: nat :| j < |uses| && uses[j] == use;
  }

  /** A router with a base path is the app's own or at the end of a chain. */
  lemma {:induction false} ChainOfPath(pool: set<Router>, uses: seq<Use>, r: Router, top: nat) returns (chain: seq<Use>)
    requires Buildable(pool, uses) && Upward(LinksOf(uses), top)
    requires PathOf(LinksOf(uses), r, top).Some? && !r.isBase
    ensures Chain(uses, chain) && chain[|chain| - 1].child == r
    decreases top - r.level
  {
    var links := LinksOf(uses);
    LinksOfIs(uses, r);
    var u :| u in uses && u.child == r && links[r] == Link(u.parent, u.mountPath);
    if u.parent.isBase {
      chain := [u];
    } else {
      var front := ChainOfPath(pool, uses, u.parent, top);
      chain := front + [u];
      hide LinksOf, Upward, PathOf;
      forall i | 0 <= i < |chain| - 1 ensures chain[i + 1].parent == chain[i].child {
        if i < |front| - 1 {
          assert front[i + 1].parent == front[i].child;
        }
      }
    }
  }

  /** What the routes of a router under a base path should be: matched by base path and then route path. */
  ghost predicate RoutesUnder(r: Router, base: string)
    reads r`routes, r`declared
  {
    && |r.routes| == |r.declared|
    && forall i :: 0 <= i < |r.routes| ==>
         var whole := base + r.declared[i];
         r.routes[i] == Route(r.declared[i], Some(base), ':' in whole, if ':' in whole then Some(whole) else None)
  }

  lemma RoutesFollow(r: Router, base: string)
    requires r.RoutesSettled() && r.basePath == Some(base)
    ensures RoutesUnder(r, base)
  {
    forall i | 0 <= i < |r.routes| ensures ':' in base + r.declared[i] <==> ':' in base || ':' in r.declared[i] {
    }
  }

  method MountOne(use: Use, ghost links: map<Router, Link>, ghost pool: set<Router>)
    requires Linked(pool) && SettledBut(pool, {}) && Follows(pool, links)
    requires use.parent in pool && use.child in pool && !use.child.isBase && use.child.level < use.parent.level
    requires use.child !in links
    modifies pool`routers, pool`parent, pool`mountPath, pool`basePath, pool`routes
    ensures Linked(pool) && SettledBut(pool, {})
    ensures Follows(pool, links[use.child := Link(use.parent, use.mountPath)])
  {
    hide Linked, SettledBut;
    use.parent.UseRouter(use.mountPath, use.child, pool);
  }

  /**
   * Any calls that build a tree leave the router at the end of every chain from the app with the mount paths
   * of the chain as its base path, and its routes with that and their own path behind it. A router that no
   * chain leads to has no base path.
   */
  method Mount(uses: seq<Use>, ghost pool: set<Router>, ghost top: nat)
    requires Linked(pool) && SettledBut(pool, {}) && Follows(pool, map[]) && Buildable(pool, uses)
    requires forall r :: r in pool ==> r.level <= top
    modifies pool`routers, pool`parent, pool`mountPath, pool`basePath, pool`routes
    ensures Upward(LinksOf(uses), top)
    ensures forall r :: r in pool ==> r.basePath == PathOf(LinksOf(uses), r, top) && r.RoutesSettled()
    ensures forall chain: seq<Use> :: Chain(uses, chain) ==>
              var r := chain[|chain| - 1].child;
              r.basePath == Some(ChainPath(chain)) && RoutesUnder(r, ChainPath(chain))
    ensures forall r :: r in pool && r.basePath.Some? && !r.isBase ==>
              exists chain: seq<Use> :: Chain(uses, chain) && chain[|chain| - 1].child == r
  {
    LinksUpward(pool, uses, top);
    for i := 0 to |uses|
      invariant Linked(pool) && SettledBut(pool, {}) && Follows(pool, LinksOf(uses[..i]))
    {
      NotYetLinked(pool, uses, i);
      LinksOfStep(uses, i);
      hide Linked, SettledBut, Follows, LinksOf;
      assert uses[i] in uses;
      MountOne(uses[i], LinksOf(uses[..i]), pool);
    }
    assert uses[..|uses|] == uses;
    forall r | r in pool ensures r.basePath == PathOf(LinksOf(uses), r, top) {
      PathsFollow(pool, LinksOf(uses), r, top);
    }
    hide Linked, SettledBut, Follows, LinksOf, PathOf, ChainPath, RoutesUnder, Upward;
    forall chain: seq<Use> | Chain(uses, chain)
      ensures var r := chain[|chain| - 1].child;
              r.basePath == Some(ChainPath(chain)) && RoutesUnder(r, ChainPath(chain))
    {
      assert chain[|chain| - 1] in uses;
      PathOfChain(pool, uses, chain, top);
      RoutesFollow(chain[|chain| - 1].child, ChainPath(chain));
    }
    forall r | r in pool && r.basePath.Some? && !r.isBase
      ensures exists chain: seq<Use> :: Chain(uses, chain) && chain[|chain| - 1].child == r
    {
      var chain := ChainOfPath(pool, uses, r, top);
    }
  }
}
