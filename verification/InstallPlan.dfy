/** What an install would download (src/packages.ts, relayedInstallPlan): a closure over a
    dependency graph that may have cycles. */
module InstallPlan {
  import opened Basics
  import opened Texts
  import opened Versions

  /** A package's metadata under its name in the index: the name its file gives itself, and
      its releases. */
  datatype PackageFile = PackageFile(name: Text, versions: seq<Release>)

  type Catalog = map<Text, PackageFile>

  datatype Planned = Planned(wanted: Text, name: Text, release: Release)

  /** Something the plan takes: not installed, and with a usable release. */
  predicate Takes(catalog: Catalog, installed: set<Text>, p: Text) {
    p !in installed && p in catalog && Latest(catalog[p].versions).Some?
  }

  function ReleaseOf(catalog: Catalog, p: Text): Release
    requires p in catalog && Latest(catalog[p].versions).Some?
  {
    Latest(catalog[p].versions).value
  }

  function PlanOf(catalog: Catalog, p: Text): Planned
    requires p in catalog && Latest(catalog[p].versions).Some?
  {
    Planned(p, catalog[p].name, ReleaseOf(catalog, p))
  }

  /** A set closed under the latest releases' dependencies, but for what is not taken. */
  ghost predicate Closed(catalog: Catalog, installed: set<Text>, s: set<Text>) {
    forall p, dep | p in s && Takes(catalog, installed, p) && dep in ReleaseOf(catalog, p).depends
      :: Takes(catalog, installed, dep) ==> dep in s
  }

  /** Every name the visits can meet. */
  function Dependencies(r: Release): set<Text> {
    set d | d in r.depends
  }

  ghost function Universe(catalog: Catalog, name: Text): set<Text> {
    {name} + set p, dep | p in catalog && Latest(catalog[p].versions).Some? && dep in Dependencies(ReleaseOf(catalog, p)) :: dep
  }

  predicate PlannedIn(plan: seq<Planned>, p: Text) {
    exists i :: 0 <= i < |plan| && plan[i].wanted == p
  }

  predicate Once(plan: seq<Planned>) {
    forall i, j :: 0 <= i < j < |plan| ==> plan[i].wanted != plan[j].wanted
  }

  /** Whatever was seen, but for names still being visited, has its dependencies seen. */
  ghost predicate Explored(catalog: Catalog, installed: set<Text>, seen: set<Text>, open: set<Text>) {
    forall p, dep | p in seen - open && Takes(catalog, installed, p) && dep in ReleaseOf(catalog, p).depends
      :: dep in seen || dep in installed
  }

  /** Nothing is seen that every closed set holding `roots` could do without. */
  ghost predicate Needed(catalog: Catalog, installed: set<Text>, seen: set<Text>, roots: set<Text>) {
    forall s | Closed(catalog, installed, s) && roots <= s
      :: forall p :: p in seen && Takes(catalog, installed, p) ==> p in s
  }

  /** In every closed set that holds the roots. */
  ghost predicate Unavoidable(catalog: Catalog, installed: set<Text>, roots: set<Text>, p: Text) {
    forall s :: Closed(catalog, installed, s) && roots <= s && Takes(catalog, installed, p) ==> p in s
  }

  lemma DependencyUnavoidable(catalog: Catalog, installed: set<Text>, roots: set<Text>, p: Text, dep: Text)
    requires Unavoidable(catalog, installed, roots, p)
    requires Takes(catalog, installed, p) && dep in ReleaseOf(catalog, p).depends
    ensures Unavoidable(catalog, installed, roots, dep)
  {
    hide Takes, ReleaseOf;
  }

  lemma AllExplored(catalog: Catalog, installed: set<Text>, seen: set<Text>, open: set<Text>, p: Text)
    requires Explored(catalog, installed, seen, open + {p}) && Takes(catalog, installed, p)
    requires forall dep :: dep in ReleaseOf(catalog, p).depends ==> dep in seen || dep in installed
    ensures Explored(catalog, installed, seen, open)
  {
    hide Takes, ReleaseOf;
  }

  /** `seen` and `plan`, updated by every visit. */
  class Planner {
    const catalog: Catalog
    const installed: set<Text>
    var seen: set<Text>
    var plan: seq<Planned>

    constructor (catalog: Catalog, installed: set<Text>)
      ensures this.catalog == catalog && this.installed == installed && seen == {} && plan == []
    {
      this.catalog, this.installed, seen, plan := catalog, installed, {}, [];
    }

    /** The plan is what was seen and is taken, once each. */
    ghost predicate Valid()
      reads this
    {
      && Once(plan) && seen !! installed
      && (forall i :: 0 <= i < |plan| ==>
            Takes(catalog, installed, plan[i].wanted) && plan[i] == PlanOf(catalog, plan[i].wanted))
      && (forall p :: PlannedIn(plan, p) <==> p in seen && Takes(catalog, installed, p))
    }

    /** `visit`. Terminates on any graph: every call that goes on sees a new name. */
    method Visit(wanted: Text, ghost open: set<Text>, ghost roots: set<Text>, ghost universe: set<Text>)
      requires Valid() && Explored(catalog, installed, seen, open) && Needed(catalog, installed, seen, roots)
      requires Universe(catalog, wanted) <= universe
      requires Unavoidable(catalog, installed, roots, wanted)
      modifies this
      ensures Valid() && Explored(catalog, installed, seen, open) && Needed(catalog, installed, seen, roots)
      ensures old(seen) <= seen && (wanted in seen || wanted in installed)
      decreases universe - seen, 0
    {
      if wanted in seen || wanted in installed {
        return;
      }
      assert wanted in universe;
      seen := seen + {wanted};
      if wanted !in catalog || Latest(catalog[wanted].versions).None? {
        return;
      }
      var release := ReleaseOf(catalog, wanted);
      Push(wanted);
      VisitAll(wanted, release.depends, open, roots, universe);
    }

    method Push(wanted: Text)
      requires Once(plan) && seen !! installed && !PlannedIn(plan, wanted)
      requires Takes(catalog, installed, wanted) && wanted in seen
      requires forall i :: 0 <= i < |plan| ==>
                 Takes(catalog, installed, plan[i].wanted) && plan[i] == PlanOf(catalog, plan[i].wanted)
      requires forall p :: PlannedIn(plan, p) <==> p in seen - {wanted} && Takes(catalog, installed, p)
      modifies this`plan
      ensures Valid()
    {
      ghost var before := plan;
      plan := plan + [PlanOf(catalog, wanted)];
      assert plan[|before|].wanted == wanted;
      forall p
        ensures PlannedIn(plan, p) <==> PlannedIn(before, p) || p == wanted
      {
        if PlannedIn(before, p) {
          var i :| 0 <= i < |before| && before[i].wanted == p;
          assert plan[i].wanted == p;
        }
      }
    }

    /** The dependencies of `wanted`, in turn. */
    method VisitAll(wanted: Text, depends: seq<Text>, ghost open: set<Text>, ghost roots: set<Text>, ghost universe: set<Text>)
      requires Valid() && Explored(catalog, installed, seen, open + {wanted}) && Needed(catalog, installed, seen, roots)
      requires wanted in seen && Takes(catalog, installed, wanted) && depends == ReleaseOf(catalog, wanted).depends
      requires Universe(catalog, wanted) <= universe
      requires Unavoidable(catalog, installed, roots, wanted)
      modifies this
      ensures Valid() && Explored(catalog, installed, seen, open) && Needed(catalog, installed, seen, roots)
      ensures old(seen) <= seen
      decreases universe - seen, 1
    {
      hide Universe, Takes, ReleaseOf, Valid, Explored, Needed, Unavoidable;
      for i := 0 to |depends|
        invariant Valid() && Explored(catalog, installed, seen, open + {wanted})
        invariant Needed(catalog, installed, seen, roots) && old(seen) <= seen
        invariant forall j :: 0 <= j < i ==> depends[j] in seen || depends[j] in installed
      {
        var dep := depends[i];
        assert dep in depends && Takes(catalog, installed, wanted);
        UniverseOfDependency(catalog, installed, wanted, dep);
        DependencyUnavoidable(catalog, installed, roots, wanted, dep);
        Visit(dep, open + {wanted}, roots, universe);
      }
      assert forall dep :: dep in depends ==> dep in seen || dep in installed;
      TakesHasRelease(catalog, installed, wanted);
      AllExplored(catalog, installed, seen, open, wanted);
    }
  }

  lemma TakesHasRelease(catalog: Catalog, installed: set<Text>, p: Text)
    requires Takes(catalog, installed, p)
    ensures p in catalog && Latest(catalog[p].versions).Some?
  {
  }

  lemma UniverseOfDependency(catalog: Catalog, installed: set<Text>, wanted: Text, dep: Text)
    requires Takes(catalog, installed, wanted) && dep in ReleaseOf(catalog, wanted).depends
    ensures Universe(catalog, dep) <= Universe(catalog, wanted)
  {
    hide Latest;
    assert dep in Dependencies(ReleaseOf(catalog, wanted));
  }

  ghost function Names(plan: seq<Planned>): set<Text> {
    set i | 0 <= i < |plan| :: plan[i].wanted
  }

  /** The least set that holds `name`, if it is taken, and is closed under dependencies. */
  ghost predicate LeastClosed(catalog: Catalog, installed: set<Text>, name: Text, names: set<Text>) {
    && (forall p :: p in names ==> Takes(catalog, installed, p))
    && (Takes(catalog, installed, name) ==> name in names)
    && Closed(catalog, installed, names)
    && forall s :: Closed(catalog, installed, s) && (Takes(catalog, installed, name) ==> name in s) ==> names <= s
  }

  /** `relayedInstallPlan`: on any graph, cycles included, it returns each name of that
      least set once, with the latest release of each. */
  method RelayedInstallPlan(catalog: Catalog, name: Text, installed: set<Text>) returns (plan: seq<Planned>)
    ensures Once(plan)
    ensures LeastClosed(catalog, installed, name, Names(plan))
    ensures forall i :: 0 <= i < |plan| ==>
              Takes(catalog, installed, plan[i].wanted) && plan[i] == PlanOf(catalog, plan[i].wanted)
    ensures IsPlan(catalog, installed, name, plan)
  {
    hide Latest;
    var planner := new Planner(catalog, installed);
    ghost var roots := if Takes(catalog, installed, name) then {name} else {};
    planner.Visit(name, {}, roots, Universe(catalog, name));
    plan := planner.plan;
    NamesArePlanned(plan);
    assert Closed(catalog, installed, Names(plan));
    hide *;
    PlanSays(catalog, installed, name, plan);
  }

  lemma NamesArePlanned(plan: seq<Planned>)
    ensures forall p :: p in Names(plan) <==> PlannedIn(plan, p)
  {
  }

  lemma PlanSays(catalog: Catalog, installed: set<Text>, name: Text, plan: seq<Planned>)
    requires LeastClosed(catalog, installed, name, Names(plan))
    requires forall i :: 0 <= i < |plan| ==>
               Takes(catalog, installed, plan[i].wanted) && plan[i] == PlanOf(catalog, plan[i].wanted)
    ensures Once(plan) ==> IsPlan(catalog, installed, name, plan)
  {
    hide Latest;
    forall p
      ensures PlannedIn(plan, p) <==> Reachable(catalog, installed, name, p)
    {
      NamesArePlanned(plan);
      hide *;
      PlannedIsReachable(catalog, installed, name, Names(plan), p);
    }
  }

  /** What an install would download: what can be reached, each once, under the name its file
      gives it, and with its latest release. */
  ghost predicate IsPlan(catalog: Catalog, installed: set<Text>, name: Text, plan: seq<Planned>) {
    && Once(plan)
    && (forall p :: PlannedIn(plan, p) <==> Reachable(catalog, installed, name, p))
    && (forall i :: 0 <= i < |plan| ==>
          var p := plan[i].wanted;
          && p !in installed && p in catalog && plan[i].name == catalog[p].name
          && Latest(catalog[p].versions) == Some(plan[i].release))
  }

  /** A way from `name` to `p` along dependencies: every package on it is not installed and
      has a release that is not yanked, the latest of which depends on the next. */
  predicate Way(catalog: Catalog, installed: set<Text>, path: seq<Text>) {
    && (forall i :: 0 <= i < |path| ==>
          path[i] !in installed && path[i] in catalog && Latest(catalog[path[i]].versions).Some?)
    && (forall i :: 0 <= i < |path| - 1 ==> path[i + 1] in Latest(catalog[path[i]].versions).value.depends)
  }

  ghost predicate Reachable(catalog: Catalog, installed: set<Text>, name: Text, p: Text) {
    exists path :: WayTo(catalog, installed, path, name, p)
  }

  predicate WayTo(catalog: Catalog, installed: set<Text>, path: seq<Text>, name: Text, p: Text) {
    path != [] && path[0] == name && path[|path| - 1] == p && Way(catalog, installed, path)
  }

  /** The least closed set is what can be reached so. */
  lemma PlannedIsReachable(catalog: Catalog, installed: set<Text>, name: Text, names: set<Text>, p: Text)
    requires LeastClosed(catalog, installed, name, names)
    ensures p in names <==> Reachable(catalog, installed, name, p)
  {
    var reached := set q | q in names && Reachable(catalog, installed, name, q);
    ReachedIsClosed(catalog, installed, name, names, reached);
    if path :| WayTo(catalog, installed, path, name, p) {
      OnTheWay(catalog, installed, name, names, path, |path| - 1);
    }
  }

  lemma ReachedIsClosed(catalog: Catalog, installed: set<Text>, name: Text, names: set<Text>, reached: set<Text>)
    requires LeastClosed(catalog, installed, name, names)
    requires reached == set q | q in names && Reachable(catalog, installed, name, q)
    ensures Closed(catalog, installed, reached) && (Takes(catalog, installed, name) ==> name in reached)
  {
    hide Latest;
    if Takes(catalog, installed, name) {
      assert WayTo(catalog, installed, [name], name, name);
    }
    forall q, dep | q in reached && Takes(catalog, installed, q) && dep in ReleaseOf(catalog, q).depends && Takes(catalog, installed, dep)
      ensures dep in reached
    {
      var path :| WayTo(catalog, installed, path, name, q);
      assert WayTo(catalog, installed, path + [dep], name, dep);
    }
  }

  lemma {:induction false} OnTheWay(catalog: Catalog, installed: set<Text>, name: Text, names: set<Text>, path: seq<Text>, i: nat)
    requires LeastClosed(catalog, installed, name, names) && i < |path| && path[0] == name && Way(catalog, installed, path)
    ensures path[i] in names
  {
    hide Latest;
    if i > 0 {
      OnTheWay(catalog, installed, name, names, path, i - 1);
      assert path[(i - 1) + 1] in Latest(catalog[path[i - 1]].versions).value.depends;
      assert Takes(catalog, installed, path[i - 1]) && Takes(catalog, installed, path[i]);
    }
  }

  /** A dependency reached only through an installed package is not planned: the least set
      stops at what is installed. */
  lemma StopsAtInstalled(catalog: Catalog, installed: set<Text>, name: Text, names: set<Text>, p: Text)
    requires LeastClosed(catalog, installed, name, names)
    requires p != name && forall q :: Takes(catalog, installed, q) && q != p ==> p !in ReleaseOf(catalog, q).depends
    ensures p !in names
  {
    var less := names - {p};
    hide Takes, ReleaseOf;
    assert Closed(catalog, installed, less);
  }
}
