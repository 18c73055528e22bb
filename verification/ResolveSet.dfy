/** The newest complete set of packages that share a build (src/packages.ts, resolveSet). */
module ResolveSet {
  import opened Basics
  import opened Texts
  import opened Versions

  type Catalog = map<Text, seq<Release>>

  datatype Installed = Installed(name: Text, version: Text, build: Text)

  datatype Pinned = Pinned(name: Text, version: Text, build: Text, sha256: Text, size: nat, url: Text)

  datatype SetError = NoNames | NoPackage(name: Text) | NoCompleteSet

  /** A repository-relative URL (`checkRelative`). */
  predicate Relative(url: Text) {
    && url != [] && url[0] != 47
    && (forall i :: 0 <= i < |url| ==> url[i] > 0x20 && url[i] != 0x7F && url[i] !in {92, 37, 63, 35, 58})
    && (forall i :: 0 <= i < |Split(url, 47)| ==> Split(url, 47)[i] !in {[], [46], [46, 46]})
  }

  function Lower(t: Text): Text {
    if t == [] then [] else [if 65 <= t[0] <= 90 then t[0] + 32 else t[0]] + Lower(t[1..])
  }

  /** The release that pins `name`: the last installed one of that name. */
  function PinOf(installed: seq<Installed>, name: Text): Option<Installed>
    decreases |installed|
  {
    if installed == [] then None
    else
      var last := installed[|installed| - 1];
      if last.name == name then Some(last) else PinOf(installed[..|installed| - 1], name)
  }

  predicate PinAllows(pin: Option<Installed>, r: Release) {
    pin.None? || (r.version == pin.value.version && r.build == pin.value.build)
  }

  /** A release that can be in a set: not yanked, a yurt_N build the page can read, and the
      installed one where one is installed. */
  predicate Eligible(pin: Option<Installed>, r: Release) {
    !r.yanked && IsYurt(r.build) && Relative(r.url) && PinAllows(pin, r)
  }

  function Candidates(versions: seq<Release>, pin: Option<Installed>): seq<Release> {
    Filter(versions, r => Eligible(pin, r))
  }

  function ByName(catalog: Catalog, names: seq<Text>, installed: seq<Installed>): Result<seq<seq<Release>>, SetError> {
    if names == [] then Ok([])
    else if names[0] !in catalog then Err(NoPackage(names[0]))
    else
      match ByName(catalog, names[1..], installed)
      case Err(e) => Err(e)
      case Ok(rest) => Ok([Candidates(catalog[names[0]], PinOf(installed, names[0]))] + rest)
  }

  predicate HasBuild(versions: seq<Release>, n: nat) {
    exists i :: 0 <= i < |versions| && BuildNumber(versions[i].build) == n
  }

  function Builds(versions: seq<Release>): (ns: seq<nat>)
    ensures |ns| == |versions|
    ensures forall i :: 0 <= i < |ns| ==> ns[i] == BuildNumber(versions[i].build)
  {
    seq(|versions|, i requires 0 <= i < |versions| => BuildNumber(versions[i].build))
  }

  /** The build numbers every member has, in the first member's order. */
  function Common(byName: seq<seq<Release>>): seq<nat>
    requires byName != []
  {
    Filter(Builds(byName[0]), n => InAll(byName, n))
  }

  predicate InAll(byName: seq<seq<Release>>, n: nat) {
    forall i :: 0 <= i < |byName| ==> HasBuild(byName[i], n)
  }

  function MaxOf(ns: seq<nat>): (m: nat)
    requires ns != []
    ensures m in ns && forall n :: n in ns ==> n <= m
  {
    if |ns| == 1 then ns[0] else
      var rest := MaxOf(ns[1..]);
      assert ns == [ns[0]] + ns[1..];
      if ns[0] >= rest then ns[0] else rest
  }

  function OfBuild(versions: seq<Release>, n: nat): (r: seq<Release>)
    ensures HasBuild(versions, n) ==> r != []
  {
    var found := Filter(versions, (v: Release) => BuildNumber(v.build) == n);
    assert forall i :: 0 <= i < |versions| && BuildNumber(versions[i].build) == n ==> versions[i] in found;
    found
  }

  /** The best release of each member with build `n`. */
  function Chosen(byName: seq<seq<Release>>, n: nat): (r: seq<Release>)
    requires InAll(byName, n)
    ensures |r| == |byName|
    ensures forall i :: 0 <= i < |byName| ==> OfBuild(byName[i], n) != [] && r[i] == Greatest(OfBuild(byName[i], n))
  {
    assert forall i :: 0 <= i < |byName| ==> HasBuild(byName[i], n);
    seq(|byName|, i requires 0 <= i < |byName| => Greatest(OfBuild(byName[i], n)))
  }

  function Pin(name: Text, r: Release): Pinned {
    Pinned(name, r.version, r.build, Lower(r.sha256), r.size, r.url)
  }

  /** The releases `resolveSet` settles on, one for each name. */
  function Releases(catalog: Catalog, names: seq<Text>, installed: seq<Installed>): Result<seq<Release>, SetError> {
    match ByName(catalog, names, installed)
    case Err(e) => Err(e)
    case Ok(byName) =>
      if byName == [] then Err(NoNames)
      else if Common(byName) == [] then Err(NoCompleteSet)
      else Ok(Chosen(byName, MaxOf(Common(byName))))
  }

  function Resolve(catalog: Catalog, names: seq<Text>, installed: seq<Installed>): Result<seq<Pinned>, SetError> {
    match Releases(catalog, names, installed)
    case Err(e) => Err(e)
    case Ok(rs) => Ok(seq(Min(|names|, |rs|), i requires 0 <= i < Min(|names|, |rs|) => Pin(names[i], rs[i])))
  }

  // ---- what is resolved ----

  /** A build every member has in an eligible release: a complete set. */
  ghost predicate Complete(catalog: Catalog, names: seq<Text>, installed: seq<Installed>, n: nat) {
    forall i :: 0 <= i < |names| ==> Offered(catalog, names[i], installed, n)
  }

  ghost predicate Offered(catalog: Catalog, name: Text, installed: seq<Installed>, n: nat) {
    name in catalog && exists r :: Offers(catalog, name, installed, n, r)
  }

  /** A release of the package that is not yanked, is of the build `yurt_n`, can be fetched,
      and is the installed one where the name is installed. */
  ghost predicate Offers(catalog: Catalog, name: Text, installed: seq<Installed>, n: nat, r: Release)
    requires name in catalog
  {
    && r in catalog[name] && !r.yanked && IsYurt(r.build) && BuildNumber(r.build) == n && Relative(r.url)
    && forall i :: 0 <= i < |installed| && LastOf(installed, name, i) ==>
         r.version == installed[i].version && r.build == installed[i].build
  }

  /** The last one installed of that name: a later one replaces an earlier. */
  predicate LastOf(installed: seq<Installed>, name: Text, i: nat)
    requires i < |installed|
  {
    installed[i].name == name && forall j :: i < j < |installed| ==> installed[j].name != name
  }

  lemma {:induction false} PinIsLast(installed: seq<Installed>, name: Text)
    ensures PinOf(installed, name).None? ==> forall i :: 0 <= i < |installed| ==> installed[i].name != name
    ensures PinOf(installed, name).Some? ==>
              exists i :: 0 <= i < |installed| && LastOf(installed, name, i) && installed[i] == PinOf(installed, name).value
    decreases |installed|
  {
    if installed != [] {
      var init, last := installed[..|installed| - 1], installed[|installed| - 1];
      if last.name == name {
        assert LastOf(installed, name, |installed| - 1);
      } else {
        PinIsLast(init, name);
        if i :| 0 <= i < |init| && LastOf(init, name, i) && PinOf(init, name) == Some(init[i]) {
          assert LastOf(installed, name, i);
        }
      }
    }
  }

  lemma EligibleOffers(catalog: Catalog, name: Text, installed: seq<Installed>, n: nat, r: Release)
    requires name in catalog
    ensures Offers(catalog, name, installed, n, r) <==>
              r in catalog[name] && Eligible(PinOf(installed, name), r) && BuildNumber(r.build) == n
  {
    hide Relative, IsYurt, BuildNumber, PinOf;
    PinIsLast(installed, name);
    var pin := PinOf(installed, name);
    if pin.Some? {
      var i :| 0 <= i < |installed| && LastOf(installed, name, i) && installed[i] == pin.value;
      assert forall j :: 0 <= j < |installed| && LastOf(installed, name, j) ==> i == j;
    }
  }

  lemma {:induction false} ByNameIs(catalog: Catalog, names: seq<Text>, installed: seq<Installed>)
    ensures ByName(catalog, names, installed).Ok? <==> forall i :: 0 <= i < |names| ==> names[i] in catalog
    ensures ByName(catalog, names, installed).Ok? ==>
              var byName := ByName(catalog, names, installed).value;
              && |byName| == |names|
              && forall i :: 0 <= i < |names| ==>
                   names[i] in catalog && byName[i] == Candidates(catalog[names[i]], PinOf(installed, names[i]))
    ensures ByName(catalog, names, installed).Err? ==>
              exists i :: 0 <= i < |names| && names[i] !in catalog &&
                ByName(catalog, names, installed) == Err(NoPackage(names[i]))
  {
    hide Candidates, PinOf;
    if names != [] {
      ByNameIs(catalog, names[1..], installed);
      assert forall i :: 0 < i < |names| ==> names[i] == names[1..][i - 1];
      assert forall i :: 0 <= i < |names[1..]| ==> names[1..][i] == names[i + 1];
    }
  }

  lemma CandidateOffers(catalog: Catalog, name: Text, installed: seq<Installed>, n: nat)
    requires name in catalog
    ensures HasBuild(Candidates(catalog[name], PinOf(installed, name)), n) <==> Offered(catalog, name, installed, n)
    ensures forall r :: r in OfBuild(Candidates(catalog[name], PinOf(installed, name)), n) <==>
              Offers(catalog, name, installed, n, r)
  {
    var cs := Candidates(catalog[name], PinOf(installed, name));
    hide Eligible, PinOf, BuildNumber, Offers;
    forall r
      ensures Offers(catalog, name, installed, n, r) <==> r in cs && BuildNumber(r.build) == n
    {
      EligibleOffers(catalog, name, installed, n, r);
    }
    hide Candidates;
    if HasBuild(cs, n) {
      var i :| 0 <= i < |cs| && BuildNumber(cs[i].build) == n;
      assert cs[i] in cs;
      assert Offers(catalog, name, installed, n, cs[i]);
    }
    if exists r :: Offers(catalog, name, installed, n, r) {
      var r :| Offers(catalog, name, installed, n, r);
      assert r in cs;
      var i :| 0 <= i < |cs| && cs[i] == r;
      assert BuildNumber(cs[i].build) == n;
    }
  }

  lemma CommonIsComplete(catalog: Catalog, names: seq<Text>, installed: seq<Installed>, byName: seq<seq<Release>>, n: nat)
    requires names != [] && ByName(catalog, names, installed) == Ok(byName)
    ensures InAll(byName, n) <==> Complete(catalog, names, installed, n)
    ensures byName != [] && (n in Common(byName) <==> InAll(byName, n))
  {
    ByNameIs(catalog, names, installed);
    hide Candidates, PinOf, Offered, Offers, HasBuild, ByName, Common;
    forall i | 0 <= i < |names|
      ensures HasBuild(byName[i], n) <==> Offered(catalog, names[i], installed, n)
    {
      CandidateOffers(catalog, names[i], installed, n);
    }
    CommonInAll(byName, n);
  }

  lemma CommonInAll(byName: seq<seq<Release>>, n: nat)
    requires byName != []
    ensures n in Common(byName) <==> InAll(byName, n)
  {
    BuildsHave(byName[0], n);
    hide HasBuild, Builds;
    assert InAll(byName, n) ==> HasBuild(byName[0], n);
  }

  lemma BuildsHave(versions: seq<Release>, n: nat)
    ensures n in Builds(versions) <==> HasBuild(versions, n)
  {
    hide BuildNumber;
    if n in Builds(versions) {
      var i :| 0 <= i < |versions| && Builds(versions)[i] == n;
      assert BuildNumber(versions[i].build) == n;
    }
    if HasBuild(versions, n) {
      var i :| 0 <= i < |versions| && BuildNumber(versions[i].build) == n;
      assert Builds(versions)[i] == n;
    }
  }

  /** What it is to be the newest complete set: no complete build is higher, and each
      member's release is offered there with no greater one. */
  ghost predicate NewestSet(catalog: Catalog, names: seq<Text>, installed: seq<Installed>, n: nat, rs: seq<Release>) {
    && |rs| == |names|
    && Complete(catalog, names, installed, n)
    && (forall m: nat :: Complete(catalog, names, installed, m) ==> m <= n)
    && (forall i :: 0 <= i < |names| ==>
          && names[i] in catalog && Offers(catalog, names[i], installed, n, rs[i])
          && forall r :: Offers(catalog, names[i], installed, n, r) ==> !ReleaseAbove(r, rs[i]))
  }

  /** `resolveSet` finds the newest complete set, and throws exactly when there is none. */
  lemma ResolveIsNewest(catalog: Catalog, names: seq<Text>, installed: seq<Installed>)
    requires names != []
    ensures Releases(catalog, names, installed).Ok? <==> exists n: nat :: Complete(catalog, names, installed, n)
    ensures Releases(catalog, names, installed).Ok? ==>
              exists n: nat :: NewestSet(catalog, names, installed, n, Releases(catalog, names, installed).value)
    ensures Releases(catalog, names, installed).Err? ==>
              || ((forall i :: 0 <= i < |names| ==> names[i] in catalog) &&
                  Releases(catalog, names, installed).error == NoCompleteSet)
              || exists i :: 0 <= i < |names| && names[i] !in catalog &&
                   Releases(catalog, names, installed).error == NoPackage(names[i])
  {
    ByNameIs(catalog, names, installed);
    if ByName(catalog, names, installed).Ok? {
      var byName := ByName(catalog, names, installed).value;
      hide Offers, ByName, Chosen, Candidates;
      forall n: nat
        ensures Complete(catalog, names, installed, n) <==> n in Common(byName)
      {
        CommonIsComplete(catalog, names, installed, byName, n);
      }
      if Common(byName) != [] {
        var n := MaxOf(Common(byName));
        ChosenIsNewest(catalog, names, installed, byName, n);
        assert Complete(catalog, names, installed, n);
      }
    }
  }

  lemma ChosenIsNewest(catalog: Catalog, names: seq<Text>, installed: seq<Installed>, byName: seq<seq<Release>>, n: nat)
    requires names != [] && ByName(catalog, names, installed) == Ok(byName)
    requires InAll(byName, n) && forall m: nat :: Complete(catalog, names, installed, m) ==> m <= n
    ensures NewestSet(catalog, names, installed, n, Chosen(byName, n))
  {
    CommonIsComplete(catalog, names, installed, byName, n);
    ByNameIs(catalog, names, installed);
    hide Candidates, PinOf, Offers, HasBuild, ByName, Complete, OfBuild, Greatest, ReleaseAbove;
    forall i | 0 <= i < |names|
      ensures names[i] in catalog && Offers(catalog, names[i], installed, n, Chosen(byName, n)[i])
      ensures forall r :: Offers(catalog, names[i], installed, n, r) ==> !ReleaseAbove(r, Chosen(byName, n)[i])
    {
      CandidateOffers(catalog, names[i], installed, n);
      NoneAbove(OfBuild(byName[i], n));
    }
  }

  lemma NoneAbove(s: seq<Release>)
    requires s != []
    ensures forall r :: r in s ==> !ReleaseAbove(r, Greatest(s))
  {
    GreatestIsMaximum(s);
    hide CompareReleases, ReleaseAbove, Greatest;
    forall r | r in s
      ensures !ReleaseAbove(r, Greatest(s))
    {
      ReleasesByPosition(Greatest(s), r);
    }
  }

  /** What is returned: each name with its release's version, build, digest, size and URL. */
  lemma ResolvePins(catalog: Catalog, names: seq<Text>, installed: seq<Installed>)
    requires names != []
    ensures Resolve(catalog, names, installed).Ok? <==> Releases(catalog, names, installed).Ok?
    ensures Resolve(catalog, names, installed).Ok? ==>
              var pins, rs := Resolve(catalog, names, installed).value, Releases(catalog, names, installed).value;
              && |pins| == |rs| == |names|
              && forall i :: 0 <= i < |names| ==>
                   && pins[i].name == names[i] && pins[i].version == rs[i].version && pins[i].build == rs[i].build
                   && pins[i].size == rs[i].size && pins[i].url == rs[i].url && pins[i].sha256 == Lower(rs[i].sha256)
  {
    ResolveIsNewest(catalog, names, installed);
    hide Lower, Releases;
  }

  // ---- resolving again ----

  /** `after` pins each name as `before` does, or to the release already resolved for it. */
  predicate PinsMore(names: seq<Text>, before: seq<Installed>, after: seq<Installed>, rs: seq<Release>) {
    |rs| == |names| &&
    forall i :: 0 <= i < |names| ==>
      || PinOf(after, names[i]) == PinOf(before, names[i])
      || PinOf(after, names[i]) == Some(Installed(names[i], rs[i].version, rs[i].build))
  }

  /** The fold stays with a release none of the rest is greater than. */
  lemma {:induction false} ReduceStays(best: Release, rest: seq<Release>)
    requires forall x :: x in rest ==> CompareReleases(best, x) >= 0
    ensures Reduce(best, rest) == best
  {
    hide CompareReleases;
    if rest != [] {
      assert rest[0] in rest;
      assert forall x :: x in rest[1..] ==> x in rest;
      ReduceStays(best, rest[1..]);
    }
  }

  lemma {:induction false} FilterFrom(s: seq<Release>, keep: Release -> bool, i: nat)
    requires i < |s| && keep(s[i]) && forall j :: 0 <= j < i ==> !keep(s[j])
    ensures Filter(s, keep) != [] && Filter(s, keep)[0] == s[i]
  {
    if i > 0 {
      FilterFrom(s[1..], keep, i - 1);
    }
  }

  /** Narrowing a list to releases equal to its first greatest one keeps that one first. */
  lemma NarrowedGreatest(s: seq<Release>, keep: Release -> bool)
    requires s != [] && keep(Greatest(s))
    requires forall x :: x in s && keep(x) ==> CompareReleases(Greatest(s), x) == 0
    ensures Filter(s, keep) != [] && Greatest(Filter(s, keep)) == Greatest(s)
  {
    hide CompareReleases, Reduce, Filter;
    var r := Greatest(s);
    var i := FirstGreatest(s);
    assert forall j :: 0 <= j < i ==> s[j] in s;
    FilterFrom(s, keep, i);
    var kept := Filter(s, keep);
    assert forall x :: x in kept[1..] ==> x in kept;
    ReduceStays(kept[0], kept[1..]);
  }

  /** The greatest release stands where everything before it is less. */
  lemma FirstGreatest(s: seq<Release>) returns (i: nat)
    requires s != []
    ensures i < |s| && s[i] == Greatest(s)
    ensures forall j :: 0 <= j < i ==> CompareReleases(Greatest(s), s[j]) > 0
  {
    var r := Greatest(s);
    ReduceIsFirst(s[0], s[1..]);
    hide CompareReleases, Reduce;
    i := 0;
    if r != s[0] {
      var k :| 0 <= k < |s[1..]| && s[1..][k] == r && CompareReleases(r, s[0]) > 0 &&
               forall j :: 0 <= j < k ==> CompareReleases(r, s[1..][j]) > 0;
      i := k + 1;
      forall j | 0 <= j < i
        ensures CompareReleases(r, s[j]) > 0
      {
        if j > 0 {
          assert s[j] == s[1..][j - 1];
        }
      }
    }
  }

  lemma {:induction false} FilterFilter(s: seq<Release>, p: Release -> bool, q: Release -> bool, both: Release -> bool)
    requires forall x :: both(x) <==> p(x) && q(x)
    ensures Filter(Filter(s, p), q) == Filter(s, both)
  {
    if s != [] {
      FilterFilter(s[1..], p, q, both);
      if p(s[0]) {
        assert Filter(s, p)[1..] == Filter(s[1..], p);
      }
    }
  }

  /** Two releases of one version and build are equal in the order. */
  lemma SameRelease(a: Release, b: Release)
    requires a.version == b.version && a.build == b.build
    ensures CompareReleases(a, b) == 0
  {
    VersionsFlip(Parse(a.version), Parse(a.version));
  }

  /** A member pinned to its resolved release resolves to it. */
  lemma PinnedMember(versions: seq<Release>, pin: Option<Installed>, name: Text, n: nat, r: Release)
    requires OfBuild(Candidates(versions, pin), n) != [] && Greatest(OfBuild(Candidates(versions, pin), n)) == r
    ensures var again := Some(Installed(name, r.version, r.build));
            && OfBuild(Candidates(versions, again), n) != []
            && Greatest(OfBuild(Candidates(versions, again), n)) == r
            && forall m :: HasBuild(Candidates(versions, again), m) ==> m == n
  {
    var again := Some(Installed(name, r.version, r.build));
    var cs := Candidates(versions, pin);
    var s := OfBuild(cs, n);
    var same := (x: Release) => x.version == r.version && x.build == r.build;
    assert r in s && r in cs;
    forall x | x in s && same(x)
      ensures CompareReleases(r, x) == 0
    {
      SameRelease(r, x);
    }
    NarrowedGreatest(s, same);
    PinnedCandidates(versions, pin, again, n, r);
    assert Filter(s, same) == OfBuild(Candidates(versions, again), n);
    var after := Candidates(versions, again);
    forall m | HasBuild(after, m)
      ensures m == n
    {
      var i :| 0 <= i < |after| && BuildNumber(after[i].build) == m;
      assert after[i] in after;
    }
  }

  lemma PinnedCandidates(versions: seq<Release>, pin: Option<Installed>, again: Option<Installed>, n: nat, r: Release)
    requires again.Some? && again.value.version == r.version && again.value.build == r.build
    requires PinAllows(pin, r) && BuildNumber(r.build) == n
    ensures Filter(OfBuild(Candidates(versions, pin), n), (x: Release) => x.version == r.version && x.build == r.build)
         == OfBuild(Candidates(versions, again), n)
  {
    var eligible := (x: Release) => Eligible(pin, x);
    var eligibleAgain := (x: Release) => Eligible(again, x);
    var ofBuild := (x: Release) => BuildNumber(x.build) == n;
    var same := (x: Release) => x.version == r.version && x.build == r.build;
    var first := (x: Release) => eligible(x) && ofBuild(x);
    var all := (x: Release) => first(x) && same(x);
    hide BuildNumber, Relative, IsYurt;
    FilterFilter(versions, eligible, ofBuild, first);
    FilterFilter(versions, first, same, all);
    FilterFilter(versions, eligibleAgain, ofBuild, all);
  }

  /** Pinning any of the members at their resolved releases resolves to the same set. */
  lemma PinningKeepsSet(catalog: Catalog, names: seq<Text>, before: seq<Installed>, after: seq<Installed>)
    requires names != [] && Releases(catalog, names, before).Ok?
    requires PinsMore(names, before, after, Releases(catalog, names, before).value)
    ensures Releases(catalog, names, after) == Releases(catalog, names, before)
  {
    var rs := Releases(catalog, names, before).value;
    ByNameIs(catalog, names, before);
    ByNameIs(catalog, names, after);
    var was, now := ByName(catalog, names, before).value, ByName(catalog, names, after).value;
    var n := MaxOf(Common(was));
    forall m: nat
      ensures m in Common(was) <==> InAll(was, m)
      ensures m in Common(now) <==> InAll(now, m)
    {
      CommonIsComplete(catalog, names, before, was, m);
      CommonIsComplete(catalog, names, after, now, m);
    }
    hide ByName, Common, Candidates, OfBuild, Greatest, PinOf, HasBuild, Chosen, InAll;
    assert rs == Chosen(was, n);
    forall i | 0 <= i < |names|
      ensures OfBuild(now[i], n) != [] && Greatest(OfBuild(now[i], n)) == rs[i]
      ensures HasBuild(now[i], n)
      ensures forall m :: HasBuild(now[i], m) ==> HasBuild(was[i], m)
    {
      HasOf(was, n, i);
      StillChosen(catalog[names[i]], PinOf(before, names[i]), PinOf(after, names[i]), names[i], n, was[i], now[i], rs[i]);
    }
    SameSet(was, now, n);
  }

  lemma HasOf(byName: seq<seq<Release>>, n: nat, i: nat)
    requires i < |byName| && InAll(byName, n)
    ensures HasBuild(byName[i], n)
  {
  }

  lemma SameSet(was: seq<seq<Release>>, now: seq<seq<Release>>, n: nat)
    requires |was| == |now| && was != [] && InAll(was, n)
    requires forall m: nat :: m in Common(was) <==> InAll(was, m)
    requires forall m: nat :: m in Common(now) <==> InAll(now, m)
    requires Common(was) != [] && n == MaxOf(Common(was))
    requires forall i :: 0 <= i < |now| ==>
               && HasBuild(now[i], n) && OfBuild(now[i], n) != []
               && Greatest(OfBuild(now[i], n)) == Chosen(was, n)[i]
               && forall m :: HasBuild(now[i], m) ==> HasBuild(was[i], m)
    ensures Common(now) != [] && MaxOf(Common(now)) == n && Chosen(now, n) == Chosen(was, n)
  {
    hide Common, HasBuild, OfBuild, Greatest;
    assert InAll(now, n);
    assert forall m: nat :: InAll(now, m) ==> InAll(was, m);
  }

  lemma StillChosen(versions: seq<Release>, was: Option<Installed>, now: Option<Installed>, name: Text, n: nat,
                    before: seq<Release>, after: seq<Release>, r: Release)
    requires before == Candidates(versions, was) && after == Candidates(versions, now)
    requires HasBuild(before, n) && OfBuild(before, n) != [] && r == Greatest(OfBuild(before, n))
    requires now == was || now == Some(Installed(name, r.version, r.build))
    ensures OfBuild(after, n) != [] && Greatest(OfBuild(after, n)) == r && HasBuild(after, n)
    ensures forall m :: HasBuild(after, m) ==> HasBuild(before, m)
  {
    if now != was {
      hide Candidates, Greatest, BuildNumber;
      PinnedMember(versions, was, name, n, r);
      assert OfBuild(after, n)[0] in after;
      var i :| 0 <= i < |after| && after[i] == OfBuild(after, n)[0];
    }
  }
}
