/** The order of releases (src/packages.ts; item 11 of Semantic Versioning 2.0.0). */
module Versions {
  import opened Basics
  import opened Numerals
  import opened Orders
  import opened Texts

  const PLUS: Unit := 43
  const DASH: Unit := 45
  const DOT: Unit := 46

  datatype Version = Version(core: seq<nat>, pre: seq<Text>)

  function Numbers(parts: seq<Text>): seq<nat> {
    if parts == [] then [] else [LeadingNumber(SkipSpace(parts[0]))] + Numbers(parts[1..])
  }

  /** `split`: numbers before the first '-', identifiers after it, nothing from '+' on. */
  function Parse(v: Text): Version {
    var plain := v[..IndexOf(v, PLUS)];
    var dash := IndexOf(plain, DASH);
    Version(Numbers(Split(plain[..dash], DOT)),
            if dash == |plain| then [] else Split(plain[dash + 1..], DOT))
  }

  function First(core: seq<nat>): nat {
    if core == [] then 0 else core[0]
  }

  function Tail(core: seq<nat>): seq<nat> {
    if core == [] then [] else core[1..]
  }

  /** Numbers, the shorter list padded with zeros. */
  function CompareCore(a: seq<nat>, b: seq<nat>): int
    decreases |a| + |b|
  {
    if a == [] && b == [] then 0
    else if First(a) != First(b) then First(a) - First(b)
    else CompareCore(Tail(a), Tail(b))
  }

  /** Identifiers: numeric by number, below any other; equal numbers by their text. */
  function CompareId(x: Text, y: Text): int {
    var nx, ny := AllDigits(x), AllDigits(y);
    if nx && ny && LeadingNumber(x) != LeadingNumber(y) then LeadingNumber(x) - LeadingNumber(y)
    else if nx != ny then (if nx then -1 else 1)
    else if x != y then (if Lex(x, y) < 0 then -1 else 1)
    else 0
  }

  function ComparePre(a: seq<Text>, b: seq<Text>): int {
    if a == [] && b == [] then 0
    else if a == [] then -1
    else if b == [] then 1
    else if CompareId(a[0], b[0]) != 0 then CompareId(a[0], b[0])
    else ComparePre(a[1..], b[1..])
  }

  function CompareParsed(a: Version, b: Version): int {
    if CompareCore(a.core, b.core) != 0 then CompareCore(a.core, b.core)
    else if a.pre == [] || b.pre == [] then |b.pre| - |a.pre|
    else ComparePre(a.pre, b.pre)
  }

  function CompareVersions(a: Text, b: Text): int {
    CompareParsed(Parse(a), Parse(b))
  }

  const YURT: Text := Literal("yurt_")

  predicate IsYurt(build: Text) {
    StartsWith(build, YURT) && AllDigits(build[|YURT|..])
  }

  function BuildNumber(build: Text): nat {
    if IsYurt(build) then LeadingNumber(build[|YURT|..]) else 0
  }

  datatype Release = Release(version: Text, build: Text, url: Text, sha256: Text, size: nat, depends: seq<Text>, yanked: bool)

  function CompareReleases(a: Release, b: Release): int {
    var c := CompareVersions(a.version, b.version);
    if c != 0 then c else BuildNumber(a.build) - BuildNumber(b.build)
  }

  // ---- what a version's text says ----

  function Units(ds: seq<nat>): (t: Text)
    requires forall i :: 0 <= i < |ds| ==> ds[i] < 10
    ensures |t| == |ds| && forall i :: 0 <= i < |t| ==> Digit(t[i]) && t[i] == 48 + ds[i]
  {
    seq(|ds|, i requires 0 <= i < |ds| => 48 + ds[i])
  }

  /** A number as it is written. */
  function Printed(n: nat): Text {
    Units(Digits(n, 10))
  }

  function AllPrinted(core: seq<nat>): (r: seq<Text>)
    ensures |r| == |core| && forall i :: 0 <= i < |core| ==> r[i] == Printed(core[i])
  {
    seq(|core|, i requires 0 <= i < |core| => Printed(core[i]))
  }

  /** Numbers with dots between; after a dash, identifiers with dots between; after a plus,
      anything. */
  function VersionText(core: seq<nat>, pre: seq<Text>, meta: Option<Text>): Text {
    var ids := if pre == [] then None else Some(Unsplit(pre, DOT));
    Signed(Signed(Unsplit(AllPrinted(core), DOT), DASH, ids), PLUS, meta)
  }

  lemma {:induction false} LeadingNext(t: Text, d: Unit, value: nat)
    requires Digit(d) && forall i :: 0 <= i < |t| ==> Digit(t[i])
    ensures LeadingNumber(t + [d], value) == LeadingNumber(t, value) * 10 + (d - 48)
  {
    if t == [] {
      assert (t + [d])[1..] == [];
    } else {
      assert (t + [d])[1..] == t[1..] + [d];
      LeadingNext(t[1..], d, value * 10 + (t[0] - 48));
    }
  }

  lemma {:induction false} LeadingValue(ds: seq<nat>)
    requires forall i :: 0 <= i < |ds| ==> ds[i] < 10
    ensures LeadingNumber(Units(ds)) == Value(ds, 10)
  {
    if ds != [] {
      var init := ds[..|ds| - 1];
      LeadingValue(init);
      assert Units(ds) == Units(init) + [48 + ds[|ds| - 1]];
      LeadingNext(Units(init), 48 + ds[|ds| - 1], 0);
    }
  }

  /** A number written is read as that number. */
  lemma PrintedBack(n: nat)
    ensures AllDigits(Printed(n)) && LeadingNumber(Printed(n)) == n
  {
    LeadingValue(Digits(n, 10));
    DigitsValue(n, 10);
  }

  lemma {:induction false} NumbersBack(core: seq<nat>)
    ensures Numbers(AllPrinted(core)) == core
  {
    if core != [] {
      PrintedBack(core[0]);
      hide Printed, LeadingNumber;
      NumbersBack(core[1..]);
      assert AllPrinted(core)[1..] == AllPrinted(core[1..]);
      assert SkipSpace(Printed(core[0])) == Printed(core[0]);
    }
  }

  lemma {:induction false} UnsplitWithout(pieces: seq<Text>, sep: Unit, x: Unit)
    requires x != sep && forall i :: 0 <= i < |pieces| ==> x !in pieces[i]
    ensures x !in Unsplit(pieces, sep)
    decreases |pieces|
  {
    if |pieces| > 1 {
      UnsplitWithout(pieces[1..], sep, x);
    }
  }

  /** A version's text is read as its numbers and its identifiers, whatever follows a plus. */
  lemma ParseBack(core: seq<nat>, pre: seq<Text>, meta: Option<Text>)
    requires core != []
    requires forall i :: 0 <= i < |pre| ==> DOT !in pre[i] && PLUS !in pre[i]
    ensures Parse(VersionText(core, pre, meta)) == Version(core, pre)
  {
    var numbers, ids := Unsplit(AllPrinted(core), DOT), Unsplit(pre, DOT);
    NoSigns(core);
    NumbersBack(core);
    SplitUnsplit(AllPrinted(core), DOT);
    UnsplitWithout(pre, DOT, PLUS);
    if pre != [] {
      SplitUnsplit(pre, DOT);
    }
    hide Numbers, AllPrinted, Unsplit, Split, IndexOf;
    ParseCut(numbers, if pre == [] then None else Some(ids), meta);
  }

  /** `a`, and after a sign it does not hold, maybe more. */
  function Signed(a: Text, sign: Unit, more: Option<Text>): Text {
    a + if more.None? then [] else [sign] + more.value
  }

  lemma SignedAt(a: Text, sign: Unit, more: Option<Text>)
    requires sign !in a
    ensures var v := Signed(a, sign, more);
            && IndexOf(v, sign) == |a| <= |v| && v[..|a|] == a && (more.None? <==> |a| == |v|)
            && (more.Some? ==> v[|a| + 1..] == more.value)
  {
    var v := Signed(a, sign, more);
    assert v[..|a|] == a;
    IndexOfIs(v, sign, |a|);
  }

  /** Where the first plus and the first dash before it stand, the text is cut. */
  lemma ParseCut(numbers: Text, ids: Option<Text>, meta: Option<Text>)
    requires PLUS !in numbers && DASH !in numbers && (ids.Some? ==> PLUS !in ids.value)
    ensures Parse(Signed(Signed(numbers, DASH, ids), PLUS, meta))
         == Version(Numbers(Split(numbers, DOT)), if ids.None? then [] else Split(ids.value, DOT))
  {
    assert PLUS !in Signed(numbers, DASH, ids);
    SignedAt(Signed(numbers, DASH, ids), PLUS, meta);
    SignedAt(numbers, DASH, ids);
    hide Numbers, Split, IndexOf, Signed;
  }

  lemma NoSigns(core: seq<nat>)
    ensures var numbers := Unsplit(AllPrinted(core), DOT);
            && PLUS !in numbers && DASH !in numbers
            && forall i :: 0 <= i < |core| ==> DOT !in AllPrinted(core)[i]
  {
    UnsplitWithout(AllPrinted(core), DOT, PLUS);
    UnsplitWithout(AllPrinted(core), DOT, DASH);
  }

  /** `yurt_N` counts as N, and any other build as 0. */
  lemma BuildBack(n: nat)
    ensures BuildNumber(Literal("yurt_") + Printed(n)) == n
  {
    PrintedBack(n);
    hide Printed, LeadingNumber;
    var build := Literal("yurt_") + Printed(n);
    assert build[|YURT|..] == Printed(n) && build[..|YURT|] == YURT;
  }

  // ---- the order, by position ----

  /** The number at `i`, zero past the end. */
  function NumberIn(core: seq<nat>, i: nat): nat {
    if i < |core| then core[i] else 0
  }

  /** At the first position whose numbers differ, `a`'s is the greater. */
  ghost predicate CoreAbove(a: seq<nat>, b: seq<nat>) {
    exists i: nat :: NumberIn(a, i) > NumberIn(b, i) && forall j: nat :: j < i ==> NumberIn(a, j) == NumberIn(b, j)
  }

  ghost predicate SameCore(a: seq<nat>, b: seq<nat>) {
    forall i: nat :: NumberIn(a, i) == NumberIn(b, i)
  }

  /** An identifier that is no number is above any that is; numbers go by value, and what is
      left by its text. */
  ghost predicate IdAbove(x: Text, y: Text) {
    if AllDigits(x) != AllDigits(y) then AllDigits(y)
    else if AllDigits(x) && LeadingNumber(x) != LeadingNumber(y) then LeadingNumber(x) > LeadingNumber(y)
    else Follows(x, y)
  }

  /** At the first position that differs `a` has the identifier above; or `b` ends there. */
  ghost predicate PreAbove(a: seq<Text>, b: seq<Text>) {
    exists i: nat :: AboveAt(a, b, i)
  }

  ghost predicate AboveAt(a: seq<Text>, b: seq<Text>, i: nat) {
    i < |a| && i <= |b| && (forall j :: 0 <= j < i ==> a[j] == b[j]) && (i < |b| ==> IdAbove(a[i], b[i]))
  }

  /** The numbers decide; then a release is above its pre-releases; then the identifiers. */
  ghost predicate VersionAbove(a: Version, b: Version) {
    || CoreAbove(a.core, b.core)
    || (SameCore(a.core, b.core) && b.pre != [] && (a.pre == [] || PreAbove(a.pre, b.pre)))
  }

  ghost predicate SameVersion(a: Version, b: Version) {
    SameCore(a.core, b.core) && a.pre == b.pre
  }

  /** The greater version is above, and of one version the greater build. */
  ghost predicate ReleaseAbove(a: Release, b: Release) {
    || VersionAbove(Parse(a.version), Parse(b.version))
    || (SameVersion(Parse(a.version), Parse(b.version)) && BuildNumber(a.build) > BuildNumber(b.build))
  }

  lemma NumberInTail(core: seq<nat>)
    ensures NumberIn(core, 0) == First(core)
    ensures forall i: nat :: NumberIn(Tail(core), i) == NumberIn(core, i + 1)
  {
  }

  lemma CoreAboveTail(a: seq<nat>, b: seq<nat>)
    requires First(a) == First(b)
    ensures CoreAbove(Tail(a), Tail(b)) <==> CoreAbove(a, b)
    ensures SameCore(Tail(a), Tail(b)) <==> SameCore(a, b)
  {
    NumberInTail(a);
    NumberInTail(b);
    hide NumberIn, First, Tail;
    if CoreAbove(Tail(a), Tail(b)) {
      var i: nat :| NumberIn(Tail(a), i) > NumberIn(Tail(b), i) && forall j: nat :: j < i ==> NumberIn(Tail(a), j) == NumberIn(Tail(b), j);
      forall j: nat | j < i + 1
        ensures NumberIn(a, j) == NumberIn(b, j)
      {
        if j > 0 {
          assert NumberIn(Tail(a), j - 1) == NumberIn(Tail(b), j - 1);
        }
      }
      assert NumberIn(a, i + 1) > NumberIn(b, i + 1);
    }
    if CoreAbove(a, b) {
      var i: nat :| NumberIn(a, i) > NumberIn(b, i) && forall j: nat :: j < i ==> NumberIn(a, j) == NumberIn(b, j);
      assert NumberIn(Tail(a), i - 1) > NumberIn(Tail(b), i - 1);
      forall j: nat | j < i - 1
        ensures NumberIn(Tail(a), j) == NumberIn(Tail(b), j)
      {
        assert NumberIn(a, j + 1) == NumberIn(b, j + 1);
      }
    }
    if SameCore(Tail(a), Tail(b)) {
      forall i: nat
        ensures NumberIn(a, i) == NumberIn(b, i)
      {
        if i > 0 {
          assert NumberIn(Tail(a), i - 1) == NumberIn(Tail(b), i - 1);
        }
      }
    }
    if SameCore(a, b) {
      forall i: nat
        ensures NumberIn(Tail(a), i) == NumberIn(Tail(b), i)
      {
        assert NumberIn(a, i + 1) == NumberIn(b, i + 1);
      }
    }
  }

  lemma {:induction false} CoreByPosition(a: seq<nat>, b: seq<nat>)
    ensures CompareCore(a, b) > 0 <==> CoreAbove(a, b)
    ensures CompareCore(a, b) == 0 <==> SameCore(a, b)
    decreases |a| + |b|
  {
    NumberInTail(a);
    NumberInTail(b);
    if a == [] && b == [] {
      assert forall i: nat :: NumberIn(a, i) == 0 == NumberIn(b, i);
    } else if First(a) == First(b) {
      CoreByPosition(Tail(a), Tail(b));
      CoreAboveTail(a, b);
      hide CoreAbove, SameCore;
    } else {
      assert NumberIn(a, 0) != NumberIn(b, 0);
    }
  }

  lemma IdByValue(x: Text, y: Text)
    ensures CompareId(x, y) > 0 <==> IdAbove(x, y)
  {
    LexByPosition(x, y);
    LexEqual(x, y);
    hide LeadingNumber, AllDigits, Lex, Follows;
  }

  lemma {:induction false} PreByPosition(a: seq<Text>, b: seq<Text>)
    ensures ComparePre(a, b) > 0 <==> PreAbove(a, b)
    ensures ComparePre(a, b) == 0 <==> a == b
  {
    if a != [] && b != [] {
      IdByValue(a[0], b[0]);
      IdFlip(a[0], b[0]);
      PreByPosition(a[1..], b[1..]);
      hide CompareId, IdAbove;
      if a[0] == b[0] {
        assert a == [a[0]] + a[1..] && b == [b[0]] + b[1..];
        if i: nat :| AboveAt(a[1..], b[1..], i) {
          assert forall j :: 0 < j <= i ==> a[j] == a[1..][j - 1] && b[j] == b[1..][j - 1];
          assert AboveAt(a, b, i + 1);
        }
        if i: nat :| AboveAt(a, b, i) {
          assert i > 0 by { NotAboveItself(a[0]); }
          assert AboveAt(a[1..], b[1..], i - 1);
        }
      } else {
        assert AboveAt(a, b, 0) <==> IdAbove(a[0], b[0]);
      }
    } else if a != [] {
      assert AboveAt(a, b, 0);
    }
  }

  lemma NotAboveItself(x: Text)
    ensures !IdAbove(x, x)
  {
    IdByValue(x, x);
  }

  /** What `compareVersions` computes is that order, and zero exactly for the same version. */
  lemma VersionsByPosition(a: Version, b: Version)
    ensures CompareParsed(a, b) > 0 <==> VersionAbove(a, b)
    ensures CompareParsed(a, b) < 0 <==> VersionAbove(b, a)
    ensures CompareParsed(a, b) == 0 <==> SameVersion(a, b)
  {
    VersionsAbove(a, b);
    VersionsAbove(b, a);
    VersionsFlip(a, b);
    hide CompareParsed, VersionAbove;
  }

  lemma VersionsAbove(a: Version, b: Version)
    ensures CompareParsed(a, b) > 0 <==> VersionAbove(a, b)
    ensures CompareParsed(a, b) == 0 <==> SameVersion(a, b)
  {
    CoreByPosition(a.core, b.core);
    PreByPosition(a.pre, b.pre);
    OneWay(a.core, b.core);
    hide CompareCore, ComparePre, CoreAbove, SameCore, PreAbove;
  }

  lemma OneWay(a: seq<nat>, b: seq<nat>)
    ensures !(CoreAbove(a, b) && SameCore(a, b))
  {
  }

  /** And what `compareReleases` computes is that of releases. */
  lemma ReleasesByPosition(a: Release, b: Release)
    ensures CompareReleases(a, b) > 0 <==> ReleaseAbove(a, b)
    ensures CompareReleases(a, b) < 0 <==> ReleaseAbove(b, a)
  {
    VersionsByPosition(Parse(a.version), Parse(b.version));
    VersionsByPosition(Parse(b.version), Parse(a.version));
    VersionsFlip(Parse(a.version), Parse(b.version));
    VersionsFlip(Parse(b.version), Parse(a.version));
    hide CompareParsed, VersionAbove, SameVersion, BuildNumber, Parse;
  }

  // ---- a total preorder ----

  lemma {:induction false} CoreFlip(a: seq<nat>, b: seq<nat>)
    ensures CompareCore(a, b) < 0 <==> CompareCore(b, a) > 0
    decreases |a| + |b|
  {
    if (a != [] || b != []) && First(a) == First(b) {
      CoreFlip(Tail(a), Tail(b));
    }
  }

  lemma {:induction false} CoreTransitive(a: seq<nat>, b: seq<nat>, c: seq<nat>)
    requires CompareCore(a, b) <= 0 && CompareCore(b, c) <= 0
    ensures CompareCore(a, c) <= 0
    ensures CompareCore(a, b) < 0 || CompareCore(b, c) < 0 ==> CompareCore(a, c) < 0
    decreases |a| + |b| + |c|
  {
    if (a != [] || b != [] || c != []) && First(a) == First(b) == First(c) {
      CompareTails(a, b);
      CompareTails(b, c);
      CompareTails(a, c);
      CoreTransitive(Tail(a), Tail(b), Tail(c));
    }
  }

  lemma CompareTails(a: seq<nat>, b: seq<nat>)
    requires First(a) == First(b)
    ensures CompareCore(a, b) == CompareCore(Tail(a), Tail(b))
  {
  }

  lemma IdFlip(x: Text, y: Text)
    ensures CompareId(x, y) < 0 <==> CompareId(y, x) > 0
    ensures CompareId(x, y) == 0 <==> x == y
  {
    LexFlip(x, y);
    LexFlip(y, x);
    LexEqual(x, y);
  }

  lemma IdTransitive(x: Text, y: Text, z: Text)
    requires CompareId(x, y) <= 0 && CompareId(y, z) <= 0
    ensures CompareId(x, z) <= 0
    ensures CompareId(x, y) < 0 || CompareId(y, z) < 0 ==> CompareId(x, z) < 0
  {
    LexEqual(x, y);
    LexEqual(y, z);
    LexEqual(x, z);
    if Lex(x, y) <= 0 && Lex(y, z) <= 0 {
      LexTransitive(x, y, z);
    }
    hide LeadingNumber, AllDigits, Lex;
  }

  lemma {:induction false} PreFlip(a: seq<Text>, b: seq<Text>)
    ensures ComparePre(a, b) < 0 <==> ComparePre(b, a) > 0
  {
    if a != [] && b != [] {
      IdFlip(a[0], b[0]);
      IdFlip(b[0], a[0]);
      hide CompareId;
      PreFlip(a[1..], b[1..]);
    }
  }

  lemma {:induction false} PreTransitive(a: seq<Text>, b: seq<Text>, c: seq<Text>)
    requires ComparePre(a, b) <= 0 && ComparePre(b, c) <= 0
    ensures ComparePre(a, c) <= 0
    ensures ComparePre(a, b) < 0 || ComparePre(b, c) < 0 ==> ComparePre(a, c) < 0
  {
    hide CompareId;
    if a != [] && b != [] && c != [] {
      IdFlip(a[0], b[0]);
      IdFlip(b[0], c[0]);
      IdFlip(a[0], c[0]);
      IdTransitive(a[0], b[0], c[0]);
      if a[0] == b[0] == c[0] {
        PreTransitive(a[1..], b[1..], c[1..]);
      }
    }
  }

  /** Swapping the arguments swaps the sign. */
  lemma VersionsFlip(a: Version, b: Version)
    ensures CompareParsed(a, b) < 0 <==> CompareParsed(b, a) > 0
  {
    CoreFlip(a.core, b.core);
    CoreFlip(b.core, a.core);
    PreFlip(a.pre, b.pre);
    hide CompareCore, ComparePre;
  }

  lemma VersionsTransitive(a: Version, b: Version, c: Version)
    requires CompareParsed(a, b) <= 0 && CompareParsed(b, c) <= 0
    ensures CompareParsed(a, c) <= 0
    ensures CompareParsed(a, b) < 0 || CompareParsed(b, c) < 0 ==> CompareParsed(a, c) < 0
  {
    hide CompareCore, ComparePre;
    CoreTransitive(a.core, b.core, c.core);
    if a.pre != [] && b.pre != [] && c.pre != [] && ComparePre(a.pre, b.pre) <= 0 && ComparePre(b.pre, c.pre) <= 0 {
      PreTransitive(a.pre, b.pre, c.pre);
    }
  }

  lemma ReleasesFlip(a: Release, b: Release)
    ensures CompareReleases(a, b) < 0 <==> CompareReleases(b, a) > 0
  {
    VersionsFlip(Parse(a.version), Parse(b.version));
    VersionsFlip(Parse(b.version), Parse(a.version));
    hide CompareParsed, BuildNumber, Parse;
  }

  lemma ReleasesTransitive(a: Release, b: Release, c: Release)
    requires CompareReleases(a, b) <= 0 && CompareReleases(b, c) <= 0
    ensures CompareReleases(a, c) <= 0
    ensures CompareReleases(a, b) < 0 || CompareReleases(b, c) < 0 ==> CompareReleases(a, c) < 0
  {
    hide CompareParsed, BuildNumber, Parse;
    VersionsTransitive(Parse(a.version), Parse(b.version), Parse(c.version));
  }

  // ---- the greatest of a list ----

  /** `reduce((a, b) => compareReleases(a, b) >= 0 ? a : b)` from `best` on. */
  function Reduce(best: Release, rest: seq<Release>): (r: Release)
    ensures r == best || r in rest
    decreases |rest|
  {
    if rest == [] then best
    else Reduce(if CompareReleases(best, rest[0]) >= 0 then best else rest[0], rest[1..])
  }

  function Greatest(s: seq<Release>): (r: Release)
    requires s != []
    ensures r in s
  {
    Reduce(s[0], s[1..])
  }

  /** No release of the list is greater than what the fold returns. */
  lemma {:induction false} ReduceIsMaximum(best: Release, rest: seq<Release>)
    ensures CompareReleases(Reduce(best, rest), best) >= 0
    ensures forall x :: x in rest ==> CompareReleases(Reduce(best, rest), x) >= 0
    decreases |rest|
  {
    hide CompareReleases;
    if rest == [] {
      ReleasesFlip(best, best);
    } else {
      var x := rest[0];
      var next := if CompareReleases(best, x) >= 0 then best else x;
      ReduceIsMaximum(next, rest[1..]);
      var r := Reduce(best, rest);
      forall y | y == best || y == x
        ensures CompareReleases(r, y) >= 0
      {
        ReleasesFlip(r, next);
        ReleasesFlip(best, x);
        ReleasesFlip(x, best);
        ReleasesFlip(y, y);
        ReleasesFlip(r, y);
        if CompareReleases(y, next) <= 0 && CompareReleases(next, r) <= 0 {
          ReleasesTransitive(y, next, r);
        }
        ReleasesFlip(next, r);
        ReleasesFlip(y, r);
        ReleasesFlip(next, y);
        ReleasesFlip(y, next);
      }
    }
  }

  lemma GreatestIsMaximum(s: seq<Release>)
    requires s != []
    ensures forall x :: x in s ==> CompareReleases(Greatest(s), x) >= 0
  {
    ReduceIsMaximum(s[0], s[1..]);
  }

  /** Of equals the earliest is returned: whatever stands before it is less. */
  lemma {:induction false} ReduceIsFirst(best: Release, rest: seq<Release>)
    ensures Reduce(best, rest) == best ||
            exists i :: 0 <= i < |rest| && rest[i] == Reduce(best, rest) &&
              CompareReleases(rest[i], best) > 0 && forall j :: 0 <= j < i ==> CompareReleases(rest[i], rest[j]) > 0
    decreases |rest|
  {
    hide CompareReleases;
    if rest != [] {
      var x := rest[0];
      var next := if CompareReleases(best, x) >= 0 then best else x;
      ReduceIsFirst(next, rest[1..]);
      var r := Reduce(best, rest);
      ReleasesFlip(best, x);
      ReleasesFlip(x, best);
      if r != next {
        var i :| 0 <= i < |rest[1..]| && rest[1..][i] == r && CompareReleases(r, next) > 0 &&
                 forall j :: 0 <= j < i ==> CompareReleases(r, rest[1..][j]) > 0;
        Above(r, next, best);
        Above(r, next, x);
        assert rest[i + 1] == r;
        forall j | 0 <= j < i + 1
          ensures CompareReleases(r, rest[j]) > 0
        {
          if j > 0 {
            assert rest[j] == rest[1..][j - 1];
          }
        }
      } else if next == x && next != best {
        assert rest[0] == r;
      }
    }
  }

  /** Above one that is not below another is above that other. */
  lemma Above(r: Release, mid: Release, low: Release)
    requires CompareReleases(r, mid) > 0
    ensures CompareReleases(mid, low) >= 0 ==> CompareReleases(r, low) > 0
  {
    ReleasesFlip(mid, r);
    ReleasesFlip(mid, low);
    ReleasesFlip(low, mid);
    ReleasesFlip(low, r);
    hide CompareReleases;
    if CompareReleases(mid, low) >= 0 {
      ReleasesTransitive(low, mid, r);
    }
  }

  predicate Live(r: Release) {
    !r.yanked
  }

  /** `latestRelease`: a greatest release that is not yanked, if there is any. */
  function Latest(versions: seq<Release>): Option<Release> {
    var candidates := Filter(versions, Live);
    if candidates == [] then None else Some(Greatest(candidates))
  }

  lemma LatestIsGreatest(versions: seq<Release>)
    ensures Latest(versions).None? <==> forall r :: r in versions ==> r.yanked
    ensures Latest(versions).Some? ==>
              && Latest(versions).value in versions && !Latest(versions).value.yanked
              && forall r :: r in versions && !r.yanked ==> !ReleaseAbove(r, Latest(versions).value)
  {
    var candidates := Filter(versions, Live);
    if candidates != [] {
      GreatestIsMaximum(candidates);
      assert candidates[0] in candidates;
      forall r | r in versions && !r.yanked
        ensures !ReleaseAbove(r, Latest(versions).value)
      {
        ReleasesByPosition(Latest(versions).value, r);
      }
    }
  }

  // ---- the code's loops ----

  /** `compareVersions`, its two loops over padded positions. */
  method CompareVersionsLoop(va: Version, vb: Version) returns (c: int)
    ensures c == CompareParsed(va, vb)
    ensures (c > 0 <==> VersionAbove(va, vb)) && (c < 0 <==> VersionAbove(vb, va))
  {
    VersionsByPosition(va, vb);
    hide CompareId, VersionAbove;
    assert va.core[0..] == va.core && vb.core[0..] == vb.core;
    var n := Max(|va.core|, |vb.core|);
    for i := 0 to n
      invariant CompareCore(va.core, vb.core) == CompareCore(DropUpTo(va.core, i), DropUpTo(vb.core, i))
    {
      var x: int := if i < |va.core| then va.core[i] else 0;
      var y: int := if i < |vb.core| then vb.core[i] else 0;
      var d := x - y;
      if d != 0 {
        return d;
      }
      assert Tail(DropUpTo(va.core, i)) == DropUpTo(va.core, i + 1);
      assert Tail(DropUpTo(vb.core, i)) == DropUpTo(vb.core, i + 1);
    }
    if |va.pre| == 0 || |vb.pre| == 0 {
      return |vb.pre| - |va.pre|;
    }
    assert va.pre[0..] == va.pre && vb.pre[0..] == vb.pre;
    for i := 0 to Max(|va.pre|, |vb.pre|)
      invariant i <= |va.pre| && i <= |vb.pre|
      invariant ComparePre(va.pre, vb.pre) == ComparePre(va.pre[i..], vb.pre[i..])
    {
      if i == |va.pre| || i == |vb.pre| {
        return if i == |va.pre| then -1 else 1;
      }
      if CompareId(va.pre[i], vb.pre[i]) != 0 {
        return CompareId(va.pre[i], vb.pre[i]);
      }
    }
    return 0;
  }
}
