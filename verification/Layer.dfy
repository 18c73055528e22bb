/** What a layer holds (src/python_layer.ts): the capture of touched paths is a closure. */
module Layer {
  import opened Basics
  import opened Orders
  import opened Texts

  const SLASH: Unit := 47

  const EXCLUDED: seq<Text> := [
    Literal("/tmp/"), Literal("/var/tmp/"), Literal("/home/"), Literal("/root/"), Literal("/dev/"),
    Literal("/proc/"), Literal("/sys/"), Literal("/run/"), Literal("/var/cache/yurt-pkg/browser/")]

  predicate InLayer(path: Text) {
    path != [SLASH] && StartsWith(path, [SLASH]) &&
    !exists i :: 0 <= i < |EXCLUDED| && Covers(EXCLUDED[i], path)
  }

  predicate Covers(root: Text, path: Text) {
    StartsWith(path, root) || (root != [] && path == root[..|root| - 1])
  }

  datatype Kind = DirNode(names: seq<Text>) | FileNode(bytes: Bytes) | LinkNode(target: Text) | OtherNode

  datatype Node = Node(kind: Kind, mode: int, uid: int, gid: int, mtime: int)

  type Fs = map<Text, Node>

  datatype LayerEntry = LayerEntry(path: Text, node: Node)

  predicate NameOk(name: Text) {
    name != [] && SLASH !in name
  }

  function Child(dir: Text, name: Text): Text {
    dir + [SLASH] + name
  }

  /** A filesystem as the guest has it: names are single components, and every path but
      the root's is listed by its directory. */
  ghost predicate IsTree(fs: Fs) {
    && (forall p :: p in fs && fs[p].kind.DirNode? ==> forall n :: n in fs[p].kind.names ==> NameOk(n))
    && (forall p :: p in fs && p != [] ==> exists dir, name :: Listed(fs, dir, name, p))
  }

  predicate Listed(fs: Fs, dir: Text, name: Text, p: Text) {
    && p == Child(dir, name) && NameOk(name)
    && dir in fs && fs[dir].kind.DirNode? && name in fs[dir].kind.names
  }

  predicate AtOrBeneath(p: Text, top: Text) {
    p == top || StartsWith(p, top + [SLASH])
  }

  /** A path the capture names: it exists, is no special file, and is in the layer. */
  predicate Wanted(fs: Fs, p: Text) {
    p in fs && !fs[p].kind.OtherNode? && InLayer(p)
  }

  predicate InSubtree(fs: Fs, p: Text, top: Text) {
    Wanted(fs, p) && AtOrBeneath(p, top)
  }

  predicate Trimmed(path: Text) {
    path == [] || path[|path| - 1] != SLASH
  }

  /** `path.replace(/\/+$/, "")`. */
  function Trim(path: Text): (t: Text)
    ensures Trimmed(t)
    ensures Trimmed(path) ==> t == path
    ensures t <= path && forall i :: |t| <= i < |path| ==> path[i] == SLASH
  {
    if Trimmed(path) then path else Trim(path[..|path| - 1])
  }

  // ---- why nothing is lost ----

  lemma ExcludedEndInSlash(i: nat)
    requires i < |EXCLUDED|
    ensures |EXCLUDED[i]| > 0 && EXCLUDED[i][|EXCLUDED[i]| - 1] == SLASH
  {
  }

  /** What is excluded is excluded with everything beneath it. */
  lemma InLayerAbove(p: Text, top: Text)
    requires AtOrBeneath(p, top) && InLayer(p)
    requires top != [] && Trimmed(top)
    ensures InLayer(top)
  {
    hide Covers, EXCLUDED;
    assert StartsWith(p, [SLASH]) ==> p[0] == SLASH;
    assert top[0] == p[0];
    forall i | 0 <= i < |EXCLUDED|
      ensures !Covers(EXCLUDED[i], top)
    {
      ExcludedEndInSlash(i);
      CoversBelow(EXCLUDED[i], p, top);
    }
  }

  lemma CoversBelow(root: Text, p: Text, top: Text)
    requires AtOrBeneath(p, top) && root != [] && root[|root| - 1] == SLASH
    ensures Covers(root, top) ==> Covers(root, p)
  {
    if StartsWith(top, root) {
      assert p[..|root|] == top[..|root|];
    } else if top == root[..|root| - 1] {
      assert top + [SLASH] == root;
    }
  }

  lemma BeneathTransitive(p: Text, q: Text, top: Text)
    requires AtOrBeneath(p, q) && AtOrBeneath(q, top)
    ensures AtOrBeneath(p, top)
  {
    if p != q && q != top {
      assert p[..|top| + 1] == p[..|q| + 1][..|top| + 1] == q[..|top| + 1];
    }
  }

  /** A path strictly beneath `top` is at or beneath one of the names `top` lists. */
  lemma {:induction false} ThroughChild(fs: Fs, p: Text, top: Text) returns (name: Text)
    requires IsTree(fs) && p in fs && AtOrBeneath(p, top) && p != top
    ensures top in fs && fs[top].kind.DirNode? && name in fs[top].kind.names
    ensures AtOrBeneath(p, Child(top, name))
    decreases |p|
  {
    var dir, last :| Listed(fs, dir, last, p);
    ParentBeneath(p, top, dir, last);
    if dir == top {
      name := last;
    } else {
      name := ThroughChild(fs, dir, top);
      BeneathTransitive(p, dir, Child(top, name));
    }
  }

  lemma ParentBeneath(p: Text, top: Text, dir: Text, name: Text)
    requires p == Child(dir, name) && NameOk(name)
    requires AtOrBeneath(p, top) && p != top
    ensures AtOrBeneath(dir, top) && AtOrBeneath(p, dir) && |dir| < |p|
  {
    assert p[..|dir| + 1] == dir + [SLASH];
    assert p[..|top| + 1] == top + [SLASH];
    assert p[|top|] == p[..|top| + 1][|top|] == SLASH;
    assert p[..|top|] == p[..|top| + 1][..|top|] == top;
    assert forall k :: |dir| < k < |p| ==> p[k] == name[k - |dir| - 1];
    if |top| < |dir| {
      assert dir[..|top| + 1] == p[..|top| + 1];
    } else {
      assert dir == p[..|dir|];
    }
  }

  /** Nothing is wanted beneath what does not exist, is no directory, or is not in the layer. */
  lemma EmptySubtree(fs: Fs, top: Text)
    requires IsTree(fs) && Trimmed(top) && top != []
    ensures !Wanted(fs, top) ==> forall p :: !InSubtree(fs, p, top)
    ensures top in fs && !fs[top].kind.DirNode? ==> forall p :: InSubtree(fs, p, top) ==> p == top
  {
    forall p | InSubtree(fs, p, top)
      ensures Wanted(fs, top)
      ensures !fs[top].kind.DirNode? ==> p == top
    {
      InLayerAbove(p, top);
      if p != top {
        var name := ThroughChild(fs, p, top);
      }
    }
  }

  /** A directory's subtree is itself and its names' subtrees. */
  lemma DirSubtree(fs: Fs, top: Text, p: Text)
    requires IsTree(fs) && Wanted(fs, top) && fs[top].kind.DirNode?
    ensures InSubtree(fs, p, top) <==> p == top || InNames(fs, p, top, |fs[top].kind.names|)
  {
    var names := fs[top].kind.names;
    if InSubtree(fs, p, top) && p != top {
      var name := ThroughChild(fs, p, top);
      var i :| 0 <= i < |names| && names[i] == name;
      assert InSubtree(fs, p, Child(top, names[i]));
    }
    forall i | 0 <= i < |names| && InSubtree(fs, p, Child(top, names[i]))
      ensures InSubtree(fs, p, top)
    {
      assert Child(top, names[i])[..|top| + 1] == top + [SLASH];
      BeneathTransitive(p, Child(top, names[i]), top);
    }
  }

  // ---- the capture ----

  function EntryOf(fs: Fs, p: Text): LayerEntry
    requires p in fs
  {
    LayerEntry(p, fs[p])
  }

  function PathKey(e: LayerEntry): seq<int> {
    e.path
  }

  ghost function Longest(paths: set<Text>): (n: nat)
    ensures forall p :: p in paths ==> |p| <= n
  {
    if paths == {} then 0
    else
      var p :| p in paths;
      var rest := Longest(paths - {p});
      assert forall q :: q in paths ==> q == p || q in paths - {p};
      Max(|p|, rest)
  }

  predicate Has(entries: seq<LayerEntry>, path: Text) {
    exists i :: 0 <= i < |entries| && entries[i].path == path
  }

  /** Each path once, each entry as the filesystem has it. */
  predicate Faithful(fs: Fs, entries: seq<LayerEntry>) {
    DistinctKeys(entries, PathKey) &&
    forall i :: 0 <= i < |entries| ==> entries[i].path in fs && entries[i] == EntryOf(fs, entries[i].path)
  }

  /** Every recorded path outside `open` has its whole subtree recorded. */
  ghost predicate Complete(fs: Fs, entries: seq<LayerEntry>, open: set<Text>) {
    forall q, p :: Has(entries, q) && q !in open && InSubtree(fs, p, q) ==> Has(entries, p)
  }

  /** `entries` has what `before` had, and the subtree of `top`. */
  ghost predicate Added(fs: Fs, before: seq<LayerEntry>, entries: seq<LayerEntry>, top: Text) {
    forall p :: Has(entries, p) <==> Has(before, p) || InSubtree(fs, p, top)
  }

  lemma SetOne(fs: Fs, entries: seq<LayerEntry>, path: Text)
    requires path in fs && Faithful(fs, entries) && !Has(entries, path)
    ensures Faithful(fs, entries + [EntryOf(fs, path)])
    ensures forall p :: Has(entries + [EntryOf(fs, path)], p) <==> Has(entries, p) || p == path
  {
    var after := entries + [EntryOf(fs, path)];
    forall p
      ensures Has(after, p) <==> Has(entries, p) || p == path
    {
      if Has(entries, p) {
        var i :| 0 <= i < |entries| && entries[i].path == p;
        assert after[i].path == p;
      }
      assert after[|entries|].path == path;
    }
  }

  lemma StillComplete(fs: Fs, before: seq<LayerEntry>, entries: seq<LayerEntry>, open: set<Text>, top: Text)
    requires Complete(fs, before, open) && Added(fs, before, entries, top)
    ensures Complete(fs, entries, open)
  {
    forall q, p | Has(entries, q) && q !in open && InSubtree(fs, p, q)
      ensures Has(entries, p)
    {
      if !Has(before, q) {
        BeneathTransitive(p, q, top);
      }
    }
  }

  /** `captureLayer`'s map of entries by path, in the order they were set. */
  class Capture {
    var entries: seq<LayerEntry>

    constructor ()
      ensures entries == []
    {
      entries := [];
    }

    /** `visit`: adds exactly the subtree of `path`, though it stops at a path it has. */
    method Visit(fs: Fs, path: Text, ghost open: set<Text>)
      requires IsTree(fs) && Trimmed(path)
      requires Faithful(fs, entries) && Complete(fs, entries, open)
      requires forall q :: q in open ==> |q| < |path|
      modifies this
      ensures Faithful(fs, entries) && Complete(fs, entries, open)
      ensures if path == [] then entries == old(entries) else Added(fs, old(entries), entries, path)
      decreases Longest(fs.Keys) + 1 - |path|, 1
    {
      hide InLayer, AtOrBeneath, IsTree;
      if path != [] {
        EmptySubtree(fs, path);
      } else {
        assert !InLayer(path) by { NotInLayer(); }
      }
      if Has(entries, path) || !InLayer(path) || path !in fs || fs[path].kind.OtherNode? {
        return;
      }
      ghost var before := entries;
      SetOne(fs, entries, path);
      entries := entries + [EntryOf(fs, path)];
      if fs[path].kind.DirNode? {
        assert Complete(fs, entries, open + {path});
        VisitNames(fs, path, open);
      }
      assert InSubtree(fs, path, path) by { Itself(path); }
      forall p
        ensures Has(entries, p) <==> Has(before, p) || InSubtree(fs, p, path)
      {
        if fs[path].kind.DirNode? {
          DirSubtree(fs, path, p);
        }
      }
      StillComplete(fs, before, entries, open, path);
    }

    /** The names of a directory, in turn. */
    method VisitNames(fs: Fs, path: Text, ghost open: set<Text>)
      requires IsTree(fs) && Trimmed(path) && Wanted(fs, path) && fs[path].kind.DirNode?
      requires Faithful(fs, entries) && Complete(fs, entries, open + {path})
      requires forall q :: q in open ==> |q| < |path|
      modifies this
      ensures Faithful(fs, entries)
      ensures NamesAdded(fs, old(entries), entries, path, |fs[path].kind.names|)
      decreases Longest(fs.Keys) + 1 - |path|, 0
    {
      var names := fs[path].kind.names;
      NoNames(fs, entries, path);
      for i := 0 to |names|
        invariant Faithful(fs, entries) && Complete(fs, entries, open + {path})
        invariant NamesAdded(fs, old(entries), entries, path, i)
      {
        assert NameOk(names[i]);
        hide InLayer, IsTree, InSubtree, Faithful, Complete, Added, NamesAdded, Has;
        var child := Child(path, names[i]);
        assert child[|child| - 1] == names[i][|names[i]| - 1];
        assert path in fs.Keys && |path| <= Longest(fs.Keys);
        ghost var between := entries;
        Visit(fs, child, open + {path});
        NextName(fs, old(entries), between, entries, path, i);
      }
    }
  }

  /** `entries` has what `before` had, and the subtrees of the first `k` names of `path`. */
  ghost predicate NamesAdded(fs: Fs, before: seq<LayerEntry>, entries: seq<LayerEntry>, path: Text, k: nat)
    requires path in fs && fs[path].kind.DirNode? && k <= |fs[path].kind.names|
  {
    forall p :: Has(entries, p) <==> Has(before, p) || InNames(fs, p, path, k)
  }

  predicate InNames(fs: Fs, p: Text, path: Text, k: nat)
    requires path in fs && fs[path].kind.DirNode? && k <= |fs[path].kind.names|
  {
    exists i :: 0 <= i < k && InSubtree(fs, p, Child(path, fs[path].kind.names[i]))
  }

  lemma NoNames(fs: Fs, entries: seq<LayerEntry>, path: Text)
    requires path in fs && fs[path].kind.DirNode?
    ensures NamesAdded(fs, entries, entries, path, 0)
  {
  }

  lemma NextName(fs: Fs, before: seq<LayerEntry>, between: seq<LayerEntry>, entries: seq<LayerEntry>, path: Text, k: nat)
    requires path in fs && fs[path].kind.DirNode? && k < |fs[path].kind.names|
    requires NamesAdded(fs, before, between, path, k)
    requires Added(fs, between, entries, Child(path, fs[path].kind.names[k]))
    ensures NamesAdded(fs, before, entries, path, k + 1)
  {
    hide InSubtree, Has, Child;
  }

  lemma NotInLayer()
    ensures !InLayer([])
  {
  }

  lemma Itself(path: Text)
    ensures AtOrBeneath(path, path)
  {
  }

  /** What no layer holds: the user's files, scratch, the kernel's own trees, and the page's
      staged copy of the repository. */
  predicate KeptOut(p: Text) {
    || AtOrBeneath(p, Literal("/tmp")) || AtOrBeneath(p, Literal("/var/tmp"))
    || AtOrBeneath(p, Literal("/home")) || AtOrBeneath(p, Literal("/root"))
    || AtOrBeneath(p, Literal("/dev")) || AtOrBeneath(p, Literal("/proc"))
    || AtOrBeneath(p, Literal("/sys")) || AtOrBeneath(p, Literal("/run"))
    || AtOrBeneath(p, Literal("/var/cache/yurt-pkg/browser"))
  }

  /** A path the layer is to have: it exists, is no special file, is absolute and not the root
      and not kept out, and is at or beneath a touched path, whatever slashes that ends in.
      A touched root is nothing but such slashes. */
  predicate Belongs(fs: Fs, touched: seq<Text>, p: Text) {
    && p in fs && !fs[p].kind.OtherNode?
    && p != [] && p[0] == SLASH && p != [SLASH] && !KeptOut(p)
    && exists i :: 0 <= i < |touched| && Trim(touched[i]) != [] && AtOrBeneath(p, Trim(touched[i]))
  }

  /** What the captured entries must be: sorted, each path once, as the filesystem has them,
      and exactly those of the paths that belong. */
  ghost predicate IsCapture(fs: Fs, touched: seq<Text>, layer: seq<LayerEntry>) {
    && Ascending(layer, PathKey)
    && (forall e :: e in layer ==> e.path in fs && e == LayerEntry(e.path, fs[e.path]))
    && (forall p :: (exists e :: e in layer && e.path == p) <==> Belongs(fs, touched, p))
  }

  lemma CoversExactly(root: Text, p: Text)
    ensures Covers(root + [SLASH], p) <==> AtOrBeneath(p, root)
  {
    assert (root + [SLASH])[..|root|] == root;
  }

  /** The excluded names are those of `KeptOut`. */
  lemma ExcludedExactly(p: Text)
    ensures KeptOut(p) <==> exists i :: 0 <= i < |EXCLUDED| && Covers(EXCLUDED[i], p)
  {
    var roots := ["/tmp", "/var/tmp", "/home", "/root", "/dev", "/proc", "/sys", "/run", "/var/cache/yurt-pkg/browser"];
    assert |EXCLUDED| == |roots|;
    forall i | 0 <= i < |roots|
      ensures Covers(EXCLUDED[i], p) <==> AtOrBeneath(p, Literal(roots[i]))
    {
      assert EXCLUDED[i] == Literal(roots[i]) + [SLASH];
      CoversExactly(Literal(roots[i]), p);
    }
    hide Literal, Covers, AtOrBeneath, EXCLUDED;
    assert KeptOut(p) <==> exists i :: 0 <= i < |roots| && AtOrBeneath(p, Literal(roots[i])) by { OneOfNine(p); }
    if i :| 0 <= i < |roots| && AtOrBeneath(p, Literal(roots[i])) {
      assert Covers(EXCLUDED[i], p);
    }
  }

  lemma OneOfNine(p: Text)
    ensures var roots := ["/tmp", "/var/tmp", "/home", "/root", "/dev", "/proc", "/sys", "/run", "/var/cache/yurt-pkg/browser"];
            KeptOut(p) <==> exists i :: 0 <= i < |roots| && AtOrBeneath(p, Literal(roots[i]))
  {
    hide Literal, AtOrBeneath;
    var roots := ["/tmp", "/var/tmp", "/home", "/root", "/dev", "/proc", "/sys", "/run", "/var/cache/yurt-pkg/browser"];
    assert roots[0] == "/tmp" && roots[1] == "/var/tmp" && roots[2] == "/home" && roots[3] == "/root" && roots[4] == "/dev";
    assert roots[5] == "/proc" && roots[6] == "/sys" && roots[7] == "/run" && roots[8] == "/var/cache/yurt-pkg/browser";
  }

  /** What belongs is what is in the subtree of some touched path. */
  lemma BelongsExactly(fs: Fs, touched: seq<Text>, p: Text)
    ensures Belongs(fs, touched, p) <==> Captured(fs, touched, p)
  {
    ExcludedExactly(p);
    hide KeptOut, EXCLUDED, Covers, Trim, AtOrBeneath;
  }

  predicate Captured(fs: Fs, touched: seq<Text>, p: Text) {
    exists i :: 0 <= i < |touched| && Trim(touched[i]) != [] && InSubtree(fs, p, Trim(touched[i]))
  }

  method CaptureLayer(fs: Fs, touched: seq<Text>) returns (layer: seq<LayerEntry>)
    requires IsTree(fs)
    ensures IsCapture(fs, touched, layer)
  {
    var capture := new Capture();
    assert Holds(fs, capture.entries, touched[..0]);
    for i := 0 to |touched|
      invariant Faithful(fs, capture.entries) && Complete(fs, capture.entries, {})
      invariant Holds(fs, capture.entries, touched[..i])
    {
      hide *;
      ghost var before := capture.entries;
      capture.Visit(fs, Trim(touched[i]), {});
      HoldsNext(fs, touched, i, before, capture.entries);
    }
    assert touched[..|touched|] == touched;
    layer := Sort(capture.entries, PathKey);
    SortedCapture(fs, touched, capture.entries);
  }

  /** The entries recorded for these touched paths. */
  ghost predicate Holds(fs: Fs, entries: seq<LayerEntry>, touched: seq<Text>) {
    forall p :: Has(entries, p) <==> Captured(fs, touched, p)
  }

  lemma HoldsNext(fs: Fs, touched: seq<Text>, i: nat, before: seq<LayerEntry>, entries: seq<LayerEntry>)
    requires i < |touched| && Holds(fs, before, touched[..i])
    requires if Trim(touched[i]) == [] then entries == before else Added(fs, before, entries, Trim(touched[i]))
    ensures Holds(fs, entries, touched[..i + 1])
  {
    CapturedNext(fs, touched, i);
    hide InSubtree, Has, Captured, Trim;
  }

  lemma SortedCapture(fs: Fs, touched: seq<Text>, entries: seq<LayerEntry>)
    requires Faithful(fs, entries) && Holds(fs, entries, touched)
    ensures IsCapture(fs, touched, Sort(entries, PathKey))
  {
    var layer := Sort(entries, PathKey);
    SortAscending(entries, PathKey);
    hide Captured, Belongs, Sort, Ascending, DistinctKeys;
    forall p
      ensures (exists e :: e in layer && e.path == p) <==> Belongs(fs, touched, p)
    {
      BelongsExactly(fs, touched, p);
      assert Has(entries, p) <==> exists e :: e in entries && e.path == p;
    }
  }

  lemma CapturedNext(fs: Fs, touched: seq<Text>, i: nat)
    requires i < |touched|
    ensures forall p :: Captured(fs, touched[..i + 1], p) <==>
                          Captured(fs, touched[..i], p) || (Trim(touched[i]) != [] && InSubtree(fs, p, Trim(touched[i])))
  {
    hide InSubtree;
    var t, u := touched[..i], touched[..i + 1];
    assert forall j :: 0 <= j < i ==> t[j] == u[j];
    assert u[i] == touched[i];
  }

  /** A touched root adds nothing: the layer is that of the other touched paths, whatever
      their order and repetition. */
  lemma RootAddsNothing(fs: Fs, touched: seq<Text>, others: seq<Text>, a: seq<LayerEntry>, b: seq<LayerEntry>)
    requires IsCapture(fs, touched, a) && IsCapture(fs, others, b)
    requires forall t :: Trim(t) != [] ==> (t in touched <==> t in others)
    ensures a == b
  {
    forall p
      ensures Belongs(fs, touched, p) <==> Belongs(fs, others, p)
    {
      if Belongs(fs, touched, p) {
        var i :| 0 <= i < |touched| && Trim(touched[i]) != [] && AtOrBeneath(p, Trim(touched[i]));
        assert touched[i] in others;
        var j :| 0 <= j < |others| && others[j] == touched[i];
      }
      if Belongs(fs, others, p) {
        var i :| 0 <= i < |others| && Trim(others[i]) != [] && AtOrBeneath(p, Trim(others[i]));
        assert others[i] in touched;
        var j :| 0 <= j < |touched| && touched[j] == others[i];
      }
    }
    SamePaths(fs, touched, others, a, b);
    SamePaths(fs, others, touched, b, a);
    AscendingUnique(a, b, PathKey);
  }

  /** The order and repetition of the touched paths make no difference. */
  lemma CaptureOfSet(fs: Fs, touched: seq<Text>, others: seq<Text>, a: seq<LayerEntry>, b: seq<LayerEntry>)
    requires IsCapture(fs, touched, a) && IsCapture(fs, others, b)
    requires forall t :: t in touched <==> t in others
    ensures a == b
  {
    hide *;
    RootAddsNothing(fs, touched, others, a, b);
  }

  lemma SamePaths(fs: Fs, touched: seq<Text>, others: seq<Text>, a: seq<LayerEntry>, b: seq<LayerEntry>)
    requires IsCapture(fs, touched, a) && IsCapture(fs, others, b)
    requires forall p :: Belongs(fs, touched, p) <==> Belongs(fs, others, p)
    ensures forall e :: e in a ==> e in b
  {
    forall e | e in a
      ensures e in b
    {
      assert Belongs(fs, touched, e.path);
      var f :| f in b && f.path == e.path;
    }
  }

  /** The layer of one touched path holds what is wanted at or beneath it exactly unless the
      path is the root. */
  lemma OnlyRootIsLost(fs: Fs, path: Text, layer: seq<LayerEntry>, p: Text)
    requires IsCapture(fs, [path], layer) && InSubtree(fs, p, Trim(path))
    ensures (exists e :: e in layer && e.path == p) <==> Trim(path) != []
  {
    assert [path][0] == path;
    BelongsExactly(fs, [path], p);
    assert Captured(fs, [path], p) <==> Trim(path) != [];
  }

  /** And a touched root alone gives an empty layer, whatever is there. */
  lemma RootCapturesNothing(fs: Fs, layer: seq<LayerEntry>)
    requires IsCapture(fs, [[SLASH]], layer)
    ensures layer == []
  {
    var root: Text := [SLASH];
    assert Trim(root) == Trim(root[..0]) == [];
    FirstIsIn(layer);
    EntriesBelong(fs, [root], layer);
  }

  lemma FirstIsIn(layer: seq<LayerEntry>)
    ensures layer != [] ==> layer[0] in layer
  {
  }

  lemma EntriesBelong(fs: Fs, touched: seq<Text>, layer: seq<LayerEntry>)
    requires IsCapture(fs, touched, layer)
    ensures forall e :: e in layer ==> Belongs(fs, touched, e.path)
  {
    hide Belongs;
  }
}
