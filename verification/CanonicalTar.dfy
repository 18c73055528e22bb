/** The canonical tree tar (scripts/canonical-tree-tar.ts): a second writer, whose names
    are split over the ustar name and prefix fields, read back by the layer's reader. */
module CanonicalTar {
  import opened Basics
  import opened Numerals
  import opened Orders
  import opened TarFormat
  import opened TarFields
  import TarRoundTrip
  import Tar

  const PREFIX_WIDTH: nat := 155

  datatype Node = TreeFile(bytes: Bytes, executable: bool) | TreeDir | TreeSymlink(target: Bytes)

  datatype TreeEntry = TreeEntry(path: Bytes, node: Node)

  // ---- splitting a path ----

  /** Whether cutting at this slash gives a prefix and a name that both fit. */
  predicate FitsAt(path: Bytes, slash: nat) {
    0 < slash < |path| && path[slash] == SLASH && slash <= PREFIX_WIDTH && |path| - slash - 1 <= NAME_WIDTH
  }

  /** The cut at the last slash before `below` that fits: a name and a prefix. */
  function LastFit(path: Bytes, below: nat): Option<(Bytes, Bytes)>
    requires below <= |path|
  {
    if below == 0 then None
    else if FitsAt(path, below - 1) then Some((path[below..], path[..below - 1]))
    else LastFit(path, below - 1)
  }

  function SplitOf(path: Bytes): Option<(Bytes, Bytes)> {
    if |path| <= NAME_WIDTH then Some((path, [])) else LastFit(path, |path|)
  }

  method LastSlash(path: Bytes, below: nat) returns (slash: int)
    requires below <= |path|
    ensures -1 <= slash < below
    ensures slash >= 0 ==> path[slash] == SLASH
    ensures forall i :: slash < i < below ==> path[i] != SLASH
  {
    slash := below - 1;
    while slash >= 0 && path[slash] != SLASH
      invariant -1 <= slash < below
      invariant forall i :: slash < i < below ==> path[i] != SLASH
    {
      slash := slash - 1;
    }
  }

  lemma {:induction false} NoFitBetween(path: Bytes, low: nat, high: nat)
    requires low <= high <= |path|
    requires forall i :: low <= i < high ==> !FitsAt(path, i)
    ensures LastFit(path, high) == LastFit(path, low)
    decreases high
  {
    if low < high {
      NoFitBetween(path, low, high - 1);
    }
  }

  /** `splitPath`: the rightmost slash whose two sides fit their fields. */
  method SplitPath(path: Bytes) returns (r: Option<(Bytes, Bytes)>)
    ensures r == SplitOf(path)
  {
    if |path| <= NAME_WIDTH {
      return Some((path, []));
    }
    var slash := LastSlash(path, |path|);
    NoFitBetween(path, slash + 1, |path|);
    while slash > 0
      invariant -1 <= slash < |path|
      invariant slash >= 0 ==> path[slash] == SLASH
      invariant LastFit(path, slash + 1) == SplitOf(path)
    {
      if slash <= PREFIX_WIDTH && |path| - slash - 1 <= NAME_WIDTH {
        return Some((path[slash + 1..], path[..slash]));
      }
      var next := LastSlash(path, slash);
      NoFitBetween(path, next + 1, slash + 1);
      slash := next;
    }
    NoFitBetween(path, 0, slash + 1);
    return None;
  }

  lemma {:induction false} LastFitCuts(path: Bytes, below: nat)
    requires below <= |path|
    ensures LastFit(path, below).Some? <==> exists slash :: 0 <= slash < below && FitsAt(path, slash)
    ensures LastFit(path, below).Some? ==>
              var (name, prefix) := LastFit(path, below).value;
              && path == prefix + [SLASH] + name && 0 < |prefix| <= PREFIX_WIDTH && |name| <= NAME_WIDTH
              && forall later :: |prefix| < later < below ==> !FitsAt(path, later)
    decreases below
  {
    if below > 0 {
      if FitsAt(path, below - 1) {
        assert path == path[..below - 1] + [path[below - 1]] + path[below..];
      } else {
        LastFitCuts(path, below - 1);
      }
    }
  }

  /** A path can be written exactly when it is short or some slash of it fits; what is
      written is the path, cut as far right as the fields allow. */
  lemma SplitPathExactly(path: Bytes)
    ensures SplitOf(path).Some? <==> |path| <= NAME_WIDTH || exists slash :: FitsAt(path, slash)
    ensures SplitOf(path).Some? ==>
              var (name, prefix) := SplitOf(path).value;
              && path == (if prefix == [] then name else prefix + [SLASH] + name)
              && |name| <= NAME_WIDTH && |prefix| <= PREFIX_WIDTH
              && (prefix == [] <==> |path| <= NAME_WIDTH)
              && (prefix != [] ==> forall later :: later > |prefix| ==> !FitsAt(path, later))
  {
    LastFitCuts(path, |path|);
  }

  // ---- a header ----

  function ModeOf(node: Node): nat {
    match node
    case TreeDir => 493
    case TreeSymlink(_) => 511
    case TreeFile(_, executable) => if executable then 493 else 420
  }

  function BodyOf(node: Node): Body {
    match node
    case TreeDir => Dir
    case TreeSymlink(target) => Symlink(target)
    case TreeFile(bytes, _) => File(bytes)
  }

  /** The layer entry a tree entry stands for. */
  function LayerEntry(e: TreeEntry): Entry {
    Entry([SLASH] + e.path, N(ModeOf(e.node)), N(0), N(0), N(0), BodyOf(e.node))
  }

  const DEVICE: Bytes := Repeat(48, 7) + [0]

  function EndBytes(kind: byte, target: Bytes, prefix: Bytes): (b: Bytes)
    ensures |b| == 356
  {
    [kind] + Field(target, 100) + USTAR + Repeat(0, 64) + DEVICE + DEVICE + Field(prefix, 155) + Repeat(0, 12)
  }

  function SumText(sum: nat): Bytes {
    PadStart(OctalText(N(sum)), 6) + [SPACE, 0]
  }

  function BlockBytes(e: TreeEntry, name: Bytes, prefix: Bytes): (b: Bytes)
    ensures |b| == BLOCK
  {
    var layer := LayerEntry(e);
    var start := HeaderStart(name, |DataOf(layer)|, layer);
    var end := EndBytes(KindOf(layer), TargetOf(layer), prefix);
    start + Field(SumText(Checksum(start, end)), 8) + end
  }

  /** What is written for one entry whose path can be split. */
  function ChunkBytes(e: TreeEntry, name: Bytes, prefix: Bytes): Bytes {
    BlockBytes(e, name, prefix) + Padded(DataOf(LayerEntry(e)))
  }

  function Chunks(es: seq<TreeEntry>): Option<Bytes> {
    if es == [] then Some([])
    else if SplitOf(es[0].path).None? || Chunks(es[1..]).None? then None
    else
      var cut := SplitOf(es[0].path).value;
      Some(ChunkBytes(es[0], cut.0, cut.1) + Chunks(es[1..]).value)
  }

  function PathKey(e: TreeEntry): seq<int> {
    e.path
  }

  /** The archive of a tree, or nothing when some path exceeds the fields. */
  function CanonicalArchive(es: seq<TreeEntry>): Option<Bytes> {
    match Chunks(Sort(es, PathKey))
    case None => None
    case Some(chunks) => Some(chunks + Repeat(0, 2 * BLOCK))
  }

  /** What the collection of a tree already refuses: a target too long for its field or
      holding a NUL; and what the host cannot hold. */
  predicate Collected(e: TreeEntry) {
    && (e.node.TreeSymlink? ==> |e.node.target| <= NAME_WIDTH && 0 !in e.node.target)
    && TarRoundTrip.CleanPath([SLASH] + e.path) && 0 !in e.path
    && |DataOf(LayerEntry(e))| < Pow(8, 12)
  }

  method Header(e: TreeEntry, name: Bytes, prefix: Bytes) returns (block: array<byte>)
    requires |name| <= NAME_WIDTH && |prefix| <= PREFIX_WIDTH
    ensures fresh(block) && block[..] == BlockBytes(e, name, prefix)
  {
    hide Field, HeaderStart, EndBytes, SumText, Checksum;
    block := new byte[BLOCK](_ => 0);
    var layer := LayerEntry(e);
    ghost var start := HeaderStart(name, |DataOf(layer)|, layer);
    HeaderFirst(block, e, name);
    HeaderSecond(block, start, layer, prefix);
    HeaderSum(block, start, EndBytes(KindOf(layer), TargetOf(layer), prefix));
  }

  /** A number without its NUL lands in the zeroed field all the same. */
  lemma SizeField(size: nat)
    ensures Field(PadStart(OctalText(N(size)), 11), 12) == Field(Octal(N(size), 12), 12)
  {
    hide OctalText;
  }

  method HeaderFirst(block: array<byte>, e: TreeEntry, name: Bytes)
    requires block.Length == BLOCK && block[..] == Repeat(0, BLOCK)
    modifies block
    ensures block[..] == HeaderStart(name, |DataOf(LayerEntry(e))|, LayerEntry(e)) + Repeat(0, 364)
  {
    hide Octal, Field, PadStart, OctalText;
    var mode := ModeOf(e.node);
    var size := |DataOf(LayerEntry(e))|;
    assert Mode(N(mode)) == N(mode);
    SizeField(size);
    Tar.PutNext(block, [], name, 0, 100);
    ghost var w1 := Field(name, 100);
    Tar.PutNext(block, w1, Octal(N(mode), 8), 100, 8);
    ghost var w2 := w1 + Field(Octal(N(mode), 8), 8);
    Tar.PutNext(block, w2, Octal(N(0), 8), 108, 8);
    ghost var w3 := w2 + Field(Octal(N(0), 8), 8);
    Tar.PutNext(block, w3, Octal(N(0), 8), 116, 8);
    ghost var w4 := w3 + Field(Octal(N(0), 8), 8);
    Tar.PutNext(block, w4, PadStart(OctalText(N(size)), 11), 124, 12);
    ghost var w5 := w4 + Field(Octal(N(size), 12), 12);
    Tar.PutNext(block, w5, Octal(N(0), 12), 136, 12);
  }

  method HeaderSecond(block: array<byte>, ghost start: Bytes, layer: Entry, prefix: Bytes)
    requires |start| == 148 && block.Length == BLOCK && block[..] == start + Repeat(0, 364)
    modifies block
    ensures block[..] == start + Repeat(SPACE, 8) + EndBytes(KindOf(layer), TargetOf(layer), prefix)
  {
    var spaces, kind, target := Repeat(SPACE, 8), KindOf(layer), TargetOf(layer);
    Tar.FieldWhole(spaces);
    Tar.FieldWhole([kind]);
    Tar.FieldWhole(USTAR);
    hide Field, DEVICE, USTAR, KindOf, TargetOf, EndBytes, DevicesAndPrefix;
    assert |USTAR| == 8 by { UstarLength(); }
    Tar.PutNext(block, start, spaces, 148, 8);
    ghost var w0 := start + spaces;
    Tar.PutNext(block, w0, [kind], 156, 1);
    ghost var w1 := w0 + [kind];
    Tar.PutNext(block, w1, target, 157, 100);
    ghost var w2 := w1 + Field(target, 100);
    Tar.PutNext(block, w2, USTAR, 257, 8);
    HeaderDevices(block, w2 + USTAR, prefix);
    EndAfter(start + spaces, kind, target, prefix);
  }

  function DevicesAndPrefix(prefix: Bytes): (b: Bytes)
    ensures |b| == 247
  {
    Repeat(0, 64) + DEVICE + DEVICE + Field(prefix, 155) + Repeat(0, 12)
  }

  method HeaderDevices(block: array<byte>, ghost before: Bytes, prefix: Bytes)
    requires |before| == 265 && block.Length == BLOCK && block[..] == before + Repeat(0, 247)
    modifies block
    ensures block[..] == before + DevicesAndPrefix(prefix)
  {
    var device := DEVICE;
    Tar.FieldWhole(device);
    assert |device| == 8;
    hide Field, DEVICE;
    ghost var w4 := before + Repeat(0, 64);
    assert block[..] == w4 + Repeat(0, 183);
    Tar.PutNext(block, w4, device, 329, 8);
    ghost var w5 := w4 + device;
    Tar.PutNext(block, w5, device, 337, 8);
    ghost var w6 := w5 + device;
    Tar.PutNext(block, w6, prefix, 345, 155);
    assert w6 + Field(prefix, 155) + Repeat(0, 12) == before + DevicesAndPrefix(prefix);
  }

  lemma UstarLength()
    ensures |USTAR| == 8
  {
  }

  lemma EndAfter(before: Bytes, kind: byte, target: Bytes, prefix: Bytes)
    ensures before + [kind] + Field(target, 100) + USTAR + DevicesAndPrefix(prefix)
         == before + EndBytes(kind, target, prefix)
  {
    EndIs(kind, target, prefix);
    hide Field, USTAR, EndBytes, DevicesAndPrefix;
  }

  lemma EndIs(kind: byte, target: Bytes, prefix: Bytes)
    ensures EndBytes(kind, target, prefix) == [kind] + Field(target, 100) + USTAR + DevicesAndPrefix(prefix)
  {
    hide Field, DEVICE, USTAR;
  }

  method HeaderSum(block: array<byte>, ghost start: Bytes, ghost end: Bytes)
    requires |start| == 148 && |end| == 356
    requires block[..] == start + Repeat(SPACE, 8) + end
    modifies block
    ensures block[..] == start + Field(SumText(Checksum(start, end)), 8) + end
  {
    var sum := Tar.SumOf(block);
    var text := SumText(sum);
    ChecksumBound(start, end);
    DigitsFit(sum, 8, 6);
    Tar.FieldWhole(text);
    hide SumText, Field, Sum;
    Tar.Put(block, text, 148, 8);
  }

  /** `compareUtf8`. */
  method CompareUtf8(a: Bytes, b: Bytes) returns (c: int)
    ensures c == Lex(a, b)
    ensures (c > 0 <==> Follows(a, b)) && (c < 0 <==> Follows(b, a))
  {
    LexByPosition(a, b);
    hide Follows;
    assert a[0..] == a && b[0..] == b;
    for i := 0 to Min(|a|, |b|)
      invariant Lex(a, b) == Lex(a[i..], b[i..])
    {
      if a[i] != b[i] {
        return (a[i] as int) - (b[i] as int);
      }
    }
    return |a| - |b|;
  }

  /** `canonicalTreeTar`, once the tree is collected and sorted. */
  method CanonicalTreeTar(es: seq<TreeEntry>) returns (r: Option<Bytes>)
    ensures r == CanonicalArchive(es)
  {
    hide ChunkBytes, SplitOf, BlockBytes, Padded, DataOf, LayerEntry, Sort, Join;
    var sorted := Sort(es, PathKey);
    var output: Bytes := [];
    for i := 0 to |sorted|
      invariant Chunks(sorted[..i]) == Some(output)
    {
      assert sorted[..i + 1] == sorted[..i] + [sorted[i]];
      ChunksAppend(sorted[..i], sorted[i]);
      var cut := SplitPath(sorted[i].path);
      if cut.None? {
        ChunksPrefix(sorted, i + 1);
        return None;
      }
      SplitPathExactly(sorted[i].path);
      var block := Header(sorted[i], cut.value.0, cut.value.1);
      var padded := Tar.PaddedParts(DataOf(LayerEntry(sorted[i])));
      ChunkIs(sorted[i], cut.value.0, cut.value.1);
      output := output + (block[..] + Join(padded));
    }
    assert sorted[..|sorted|] == sorted;
    return Some(output + Repeat(0, 2 * BLOCK));
  }

  lemma ChunkIs(e: TreeEntry, name: Bytes, prefix: Bytes)
    ensures ChunkBytes(e, name, prefix) == BlockBytes(e, name, prefix) + Padded(DataOf(LayerEntry(e)))
  {
  }

  lemma {:induction false} ChunksAppend(es: seq<TreeEntry>, e: TreeEntry)
    ensures Chunks(es + [e])
         == if Chunks(es).Some? && SplitOf(e.path).Some?
            then Some(Chunks(es).value + ChunkBytes(e, SplitOf(e.path).value.0, SplitOf(e.path).value.1))
            else None
  {
    hide ChunkBytes, SplitOf;
    if es == [] {
      assert es + [e] == [e] && [e][1..] == [];
      assert forall chunk: Bytes :: [] + chunk == chunk + [];
    } else {
      ChunksAppend(es[1..], e);
      assert (es + [e])[1..] == es[1..] + [e];
      assert (es + [e])[0] == es[0];
      if Chunks(es).Some? && SplitOf(e.path).Some? {
        var cut, last := SplitOf(es[0].path).value, SplitOf(e.path).value;
        var head, tail := ChunkBytes(es[0], cut.0, cut.1), ChunkBytes(e, last.0, last.1);
        assert head + (Chunks(es[1..]).value + tail) == head + Chunks(es[1..]).value + tail;
      }
    }
  }

  lemma {:induction false} ChunksPrefix(es: seq<TreeEntry>, i: nat)
    requires i <= |es| && Chunks(es[..i]).None?
    ensures Chunks(es).None?
    decreases |es| - i
  {
    if i == |es| {
      assert es[..i] == es;
    } else {
      ChunksAppend(es[..i], es[i]);
      assert es[..i + 1] == es[..i] + [es[i]];
      ChunksPrefix(es, i + 1);
    }
  }

  // ---- reading it back ----

  lemma BlockLayout(e: TreeEntry, name: Bytes, prefix: Bytes)
    ensures var b, layer := BlockBytes(e, name, prefix), LayerEntry(e);
            && b[0..100] == Field(name, 100)
            && b[100..108] == Field(Octal(N(ModeOf(e.node)), 8), 8)
            && b[108..116] == b[116..124] == Field(Octal(N(0), 8), 8)
            && b[124..136] == Field(Octal(N(|DataOf(layer)|), 12), 12)
            && b[136..148] == Field(Octal(N(0), 12), 12)
            && b[156] == KindOf(layer) && b[257] == 117
            && b[157..257] == Field(TargetOf(layer), 100)
            && b[345..500] == Field(prefix, 155)
  {
    var layer, b := LayerEntry(e), BlockBytes(e, name, prefix);
    BlockParts(e, name, prefix);
    LayerNumbers(e);
    TarRoundTrip.StartLayout(name, |DataOf(layer)|, layer);
    EndLayout(KindOf(layer), TargetOf(layer), prefix);
    hide *;
    BlockSlices(b, b[..148], b[156..]);
  }

  lemma BlockSlices(b: Bytes, start: Bytes, end: Bytes)
    requires |b| == BLOCK && b[..148] == start && b[156..] == end
    ensures b[0..100] == start[0..100] && b[100..108] == start[100..108] && b[108..116] == start[108..116]
    ensures b[116..124] == start[116..124] && b[124..136] == start[124..136] && b[136..148] == start[136..148]
    ensures b[156] == end[0] && b[157..257] == end[1..101] && b[257] == end[101] && b[345..500] == end[189..344]
  {
    assert b[0..100] == b[..148][0..100] && b[100..108] == b[..148][100..108] && b[108..116] == b[..148][108..116];
    assert b[116..124] == b[..148][116..124] && b[124..136] == b[..148][124..136] && b[136..148] == b[..148][136..148];
    assert b[157..257] == b[156..][1..101] && b[345..500] == b[156..][189..344];
  }

  lemma LayerNumbers(e: TreeEntry)
    ensures var layer := LayerEntry(e);
            && Mode(layer.mode) == N(ModeOf(e.node)) && layer.uid == layer.gid == N(0) && Mtime(layer.mtime) == N(0)
  {
  }

  /** The checksum is six octal digits of the sum of the block with the field as spaces, then a
      space and a NUL. */
  lemma ChecksumHolds(e: TreeEntry, name: Bytes, prefix: Bytes) returns (ds: seq<nat>)
    ensures var b := BlockBytes(e, name, prefix);
            && |ds| == 6 && (forall i :: 0 <= i < 6 ==> ds[i] < 8) && Value(ds, 8) == SumOfBlock(b)
            && b[148..154] == Ascii(ds) && b[154] == SPACE && b[155] == 0
  {
    var b, layer := BlockBytes(e, name, prefix), LayerEntry(e);
    var start, end := HeaderStart(name, |DataOf(layer)|, layer), EndBytes(KindOf(layer), TargetOf(layer), prefix);
    var sum := Checksum(start, end);
    BlockParts(e, name, prefix);
    SumIs(b);
    assert b[148..156] == Field(SumText(sum), 8) by { hide HeaderStart, EndBytes, Field, SumText, Checksum; }
    hide BlockBytes, HeaderStart, EndBytes, Field, Octal, Checksum;
    ChecksumBound(start, end);
    ds := OctalDigits(sum, 7);
    SixDigits(sum, ds);
    SumTextIs(sum, ds);
    Tar.FieldWhole(SumText(sum));
    hide SumText;
    assert b[148..154] == b[148..156][..6] && b[154] == b[148..156][6] && b[155] == b[148..156][7];
  }

  lemma SumTextIs(sum: nat, ds: seq<nat>)
    requires |ds| == 6 && (forall i :: 0 <= i < 6 ==> ds[i] < 8) && Octal(N(sum), 7) == Ascii(ds) + [0]
    ensures SumText(sum) == Ascii(ds) + [SPACE, 0]
  {
    hide OctalText;
    assert Octal(N(sum), 7)[..6] == Ascii(ds);
    assert Octal(N(sum), 7) == PadStart(OctalText(N(sum)), 6) + [0];
    assert (PadStart(OctalText(N(sum)), 6) + [0])[..|Octal(N(sum), 7)| - 1] == PadStart(OctalText(N(sum)), 6);
  }

  lemma BlockParts(e: TreeEntry, name: Bytes, prefix: Bytes)
    ensures var b, layer := BlockBytes(e, name, prefix), LayerEntry(e);
            && b[..148] == HeaderStart(name, |DataOf(layer)|, layer)
            && b[156..] == EndBytes(KindOf(layer), TargetOf(layer), prefix)
  {
    hide HeaderStart, EndBytes, Field, LayerEntry;
  }

  lemma EndLayout(kind: byte, target: Bytes, prefix: Bytes)
    ensures var b := EndBytes(kind, target, prefix);
            && b[0] == kind && b[1..101] == Field(target, 100) && b[101] == 117
            && b[189..344] == Field(prefix, 155)
  {
    hide Field;
  }

  lemma NumbersRead(e: TreeEntry, name: Bytes, prefix: Bytes)
    requires |DataOf(LayerEntry(e))| < Pow(8, 12)
    ensures var b, layer := BlockBytes(e, name, prefix), LayerEntry(e);
            && NumberAt(b, 100, 8) == layer.mode && NumberAt(b, 108, 8) == layer.uid
            && NumberAt(b, 116, 8) == layer.gid && NumberAt(b, 136, 12) == layer.mtime
            && NumberAt(b, 124, 12) == N(|DataOf(layer)|)
            && FieldAt(b, 156, 1) == [KindOf(layer)] && !AllZero(b)
  {
    hide BlockBytes, NumberAt, FieldAt, Octal, Field, DataOf, KindOf;
    var b, layer := BlockBytes(e, name, prefix), LayerEntry(e);
    BlockLayout(e, name, prefix);
    PowLiterals();
    KindRead(b, e);
    OctalField(ModeOf(e.node), b, 100, 8);
    OctalField(0, b, 108, 8);
    OctalField(0, b, 116, 8);
    OctalField(|DataOf(layer)|, b, 124, 12);
    OctalField(0, b, 136, 12);
  }

  lemma KindRead(b: Bytes, e: TreeEntry)
    requires |b| == BLOCK && b[156] == KindOf(LayerEntry(e))
    ensures FieldAt(b, 156, 1) == [KindOf(LayerEntry(e))]
  {
    var kind := [KindOf(LayerEntry(e))];
    assert b[156..157] == kind && kind[..1] == kind;
    IndexOfIs(b[156..157], 0, 1);
  }

  lemma TextsRead(e: TreeEntry, name: Bytes, prefix: Bytes)
    requires |name| <= NAME_WIDTH && |prefix| <= PREFIX_WIDTH && |TargetOf(LayerEntry(e))| <= NAME_WIDTH
    requires 0 !in name && 0 !in prefix && 0 !in TargetOf(LayerEntry(e))
    ensures var b := BlockBytes(e, name, prefix);
            && FieldAt(b, 0, 100) == DecodeText(name)
            && FieldAt(b, 345, 155) == DecodeText(prefix)
            && FieldAt(b, 157, 100) == DecodeText(TargetOf(LayerEntry(e)))
  {
    var b, target := BlockBytes(e, name, prefix), TargetOf(LayerEntry(e));
    BlockLayout(e, name, prefix);
    hide BlockBytes, FieldAt, Field, DecodeText, TargetOf, LayerEntry;
    TextField(name, b, 0, 100);
    TextField(prefix, b, 345, 155);
    TextField(target, b, 157, 100);
    WholeText(name);
    WholeText(prefix);
    WholeText(target);
  }

  lemma WholeText(text: Bytes)
    requires 0 !in text
    ensures text[..IndexOf(text, 0)] == text
  {
    assert text[..|text|] == text;
    IndexOfIs(text, 0, |text|);
  }

  /** Entries the reader gives back: no field it decodes begins with a byte order mark. */
  predicate Readable(e: TreeEntry) {
    && SplitOf(e.path).Some?
    && !StartsWithBom(SplitOf(e.path).value.0) && !StartsWithBom(SplitOf(e.path).value.1)
    && !StartsWithBom(TargetOf(LayerEntry(e)))
  }

  lemma CleanParts(path: Bytes)
    requires TarRoundTrip.CleanPath([SLASH] + path)
    ensures PathParts(path) != [] && Unsplit(PathParts(path), SLASH) == path
    ensures forall i :: 0 <= i < |PathParts(path)| ==> !Dots(PathParts(path)[i])
  {
    assert ([SLASH] + path)[1..] == path;
    FilterAll(Split(path, SLASH), Usable);
    UnsplitSplit(path, SLASH);
  }

  lemma SlashFirst(a: Bytes, b: Bytes)
    ensures [SLASH] + a == [SLASH] + b <==> a == b
  {
    assert ([SLASH] + a)[1..] == a && ([SLASH] + b)[1..] == b;
  }

  lemma BuildRaw(e: TreeEntry, name: Bytes, prefix: Bytes, raw: Bytes)
    requires Collected(e)
    requires raw == RawName(BlockBytes(e, name, prefix), map[])
    ensures var back := BuildEntry(BlockBytes(e, name, prefix), map[], DataOf(LayerEntry(e)));
            var target := FieldAt(BlockBytes(e, name, prefix), 157, 100);
            && (back == Ok(LayerEntry(e)) ==>
                  Unsplit(PathParts(raw), SLASH) == e.path && (e.node.TreeSymlink? ==> target == e.node.target))
            && (raw == e.path && (e.node.TreeSymlink? ==> target == e.node.target) ==> back == Ok(LayerEntry(e)))
  {
    hide BlockBytes, NumberAt, FieldAt, RawName, Filter, Split, Unsplit;
    NumbersRead(e, name, prefix);
    CleanParts(e.path);
    hide PathParts;
    SlashFirst(Unsplit(PathParts(raw), SLASH), e.path);
  }

  lemma RawOf(e: TreeEntry, name: Bytes, prefix: Bytes)
    requires |name| <= NAME_WIDTH && |prefix| <= PREFIX_WIDTH && |TargetOf(LayerEntry(e))| <= NAME_WIDTH
    requires 0 !in name && 0 !in prefix && 0 !in TargetOf(LayerEntry(e))
    ensures RawName(BlockBytes(e, name, prefix), map[])
         == (if DecodeText(prefix) != [] then DecodeText(prefix) + [SLASH] else []) + DecodeText(name)
  {
    TextsRead(e, name, prefix);
    hide BlockBytes, FieldAt, DecodeText;
  }

  function ChunkOf(e: TreeEntry): Bytes
    requires SplitOf(e.path).Some?
  {
    ChunkBytes(e, SplitOf(e.path).value.0, SplitOf(e.path).value.1)
  }

  /** What the reader makes of one chunk. */
  function BackOf(e: TreeEntry): Result<Entry, TarError>
    requires SplitOf(e.path).Some?
  {
    BuildEntry(BlockBytes(e, SplitOf(e.path).value.0, SplitOf(e.path).value.1), map[], DataOf(LayerEntry(e)))
  }

  /** The reader's name of a path cut in two is the path, but for the byte order marks it drops. */
  lemma Rejoined(name: Bytes, prefix: Bytes)
    ensures var path := if prefix == [] then name else prefix + [SLASH] + name;
            var raw := (if DecodeText(prefix) != [] then DecodeText(prefix) + [SLASH] else []) + DecodeText(name);
            && |raw| <= |path|
            && (if StartsWithBom(name) || StartsWithBom(prefix) then |raw| < |path| else raw == path)
  {
    hide StartsWithBom;
    assert StartsWithBom(name) ==> |name| >= 3 by { BomLength(name); }
    assert StartsWithBom(prefix) ==> |prefix| >= 3 by { BomLength(prefix); }
  }

  lemma BomLength(text: Bytes)
    ensures StartsWithBom(text) ==> |text| >= 3
  {
  }

  /** One chunk is read back as its layer entry exactly when it is readable. */
  lemma ChunkReads(e: TreeEntry)
    requires Collected(e) && SplitOf(e.path).Some?
    ensures BackOf(e) == Ok(LayerEntry(e)) <==> Readable(e)
  {
    var (name, prefix) := SplitOf(e.path).value;
    SplitPathExactly(e.path);
    NoNuls(e);
    hide *;
    var raw := RawName(BlockBytes(e, name, prefix), map[]);
    RawOf(e, name, prefix);
    TextsRead(e, name, prefix);
    BuildRaw(e, name, prefix, raw);
    TarRoundTrip.NameShortens(raw);
    Rejoined(name, prefix);
    TargetDecodes(TargetOf(LayerEntry(e)));
    BackIs(e);
    ReadableIs(e);
  }

  lemma NoNuls(e: TreeEntry)
    requires Collected(e) && SplitOf(e.path).Some?
    ensures 0 !in SplitOf(e.path).value.0 && 0 !in SplitOf(e.path).value.1
    ensures |TargetOf(LayerEntry(e))| <= NAME_WIDTH && 0 !in TargetOf(LayerEntry(e))
  {
    SplitPathExactly(e.path);
    hide SplitOf, TarRoundTrip.CleanPath;
  }

  lemma BackIs(e: TreeEntry)
    requires SplitOf(e.path).Some?
    ensures BackOf(e) == BuildEntry(BlockBytes(e, SplitOf(e.path).value.0, SplitOf(e.path).value.1), map[], DataOf(LayerEntry(e)))
    ensures TargetOf(LayerEntry(e)) == if e.node.TreeSymlink? then e.node.target else []
  {
    hide SplitOf, BuildEntry, BlockBytes, DataOf;
  }

  lemma ReadableIs(e: TreeEntry)
    requires SplitOf(e.path).Some?
    ensures Readable(e) <==>
              && !StartsWithBom(SplitOf(e.path).value.0) && !StartsWithBom(SplitOf(e.path).value.1)
              && (e.node.TreeSymlink? ==> !StartsWithBom(e.node.target))
  {
    hide SplitOf;
  }

  lemma TargetDecodes(target: Bytes)
    ensures DecodeText(target) == target <==> !StartsWithBom(target)
  {
  }

  function Layers(es: seq<TreeEntry>): (r: seq<Entry>)
    ensures |r| == |es|
  {
    if es == [] then [] else [LayerEntry(es[0])] + Layers(es[1..])
  }

  lemma ChunkDecodes(e: TreeEntry, rest: Bytes)
    requires Collected(e) && SplitOf(e.path).Some?
    ensures Decode(ChunkOf(e) + rest, map[]) == Then(BackOf(e), Decode(rest, map[]))
  {
    var (name, prefix) := SplitOf(e.path).value;
    NumbersRead(e, name, prefix);
    hide BlockBytes, BuildEntry, FieldAt, NumberAt, Padded, SplitOf, Decode, AllZero;
    TarRoundTrip.DecodeBlock(BlockBytes(e, name, prefix), DataOf(LayerEntry(e)), rest, map[]);
  }

  predicate AllReadable(es: seq<TreeEntry>) {
    forall i :: 0 <= i < |es| ==> Readable(es[i])
  }

  lemma AllReadableCons(es: seq<TreeEntry>)
    requires es != []
    ensures AllReadable(es) <==> Readable(es[0]) && AllReadable(es[1..])
  {
    hide Readable;
    assert forall i :: 0 < i < |es| ==> es[i] == es[1..][i - 1];
  }

  /** Chunk by chunk, the reader recovers the entries, exactly when all are readable. */
  lemma {:induction false} ChunksDecode(es: seq<TreeEntry>, chunks: Bytes)
    requires forall i :: 0 <= i < |es| ==> Collected(es[i])
    requires Chunks(es) == Some(chunks)
    ensures Decode(chunks + Repeat(0, 2 * BLOCK), map[]) == Ok(Layers(es)) <==> AllReadable(es)
  {
    hide *;
    if es == [] {
      NoChunks(es, chunks);
    } else {
      var e := es[0];
      var rest, end := ChunksCons(es, chunks);
      ChunksDecode(es[1..], rest);
      ChunkDecodes(e, rest + end);
      ChunkReads(e);
      assert chunks + end == ChunkOf(e) + (rest + end);
      ThenExact(BackOf(e), Decode(rest + end, map[]), LayerEntry(e), Layers(es[1..]));
      AllReadableCons(es);
    }
  }

  lemma NoChunks(es: seq<TreeEntry>, chunks: Bytes)
    requires es == [] && Chunks(es) == Some(chunks)
    ensures Decode(chunks + Repeat(0, 2 * BLOCK), map[]) == Ok(Layers(es)) && AllReadable(es)
  {
    var end := Repeat(0 as byte, 2 * BLOCK);
    assert chunks + end == end && AllZero(end[..BLOCK]);
  }

  lemma ChunksCons(es: seq<TreeEntry>, chunks: Bytes) returns (rest: Bytes, end: Bytes)
    requires es != [] && Chunks(es) == Some(chunks)
    ensures SplitOf(es[0].path).Some? && Chunks(es[1..]) == Some(rest)
    ensures chunks == ChunkOf(es[0]) + rest
    ensures Layers(es) == [LayerEntry(es[0])] + Layers(es[1..])
    ensures end == Repeat(0 as byte, 2 * BLOCK)
  {
    hide ChunkBytes, SplitOf, LayerEntry;
    rest, end := Chunks(es[1..]).value, Repeat(0 as byte, 2 * BLOCK);
  }

  lemma ThenExact(first: Result<Entry, TarError>, rest: Result<seq<Entry>, TarError>, e: Entry, es: seq<Entry>)
    ensures Then(first, rest) == Ok([e] + es) <==> first == Ok(e) && rest == Ok(es)
  {
    if Then(first, rest) == Ok([e] + es) {
      var whole := [first.value] + rest.value;
      assert whole[0] == ([e] + es)[0] && whole[1..] == ([e] + es)[1..] == es;
    }
  }

  /** The layer's reader recovers what the canonical writer wrote through `splitPath`: the
      sorted tree, entry by entry, exactly when no field begins with a byte order mark. */
  lemma CanonicalRoundTrip(es: seq<TreeEntry>)
    requires forall i :: 0 <= i < |es| ==> Collected(es[i])
    requires CanonicalArchive(es).Some?
    ensures Decode(CanonicalArchive(es).value, map[]) == Ok(Layers(Sort(es, PathKey)))
            <==> forall i :: 0 <= i < |es| ==> Readable(es[i])
  {
    var sorted := Sort(es, PathKey);
    SortSorts(es, PathKey);
    hide Collected, Readable, SplitOf, Decode, Sort, Chunks;
    forall i | 0 <= i < |sorted|
      ensures Collected(sorted[i])
    {
      assert sorted[i] in multiset(es);
    }
    ChunksDecode(sorted, Chunks(sorted).value);
    forall e
      ensures e in sorted <==> e in es
    {
      assert e in sorted <==> e in multiset(sorted);
      assert e in es <==> e in multiset(es);
    }
    assert AllReadable(sorted) <==> forall e :: e in sorted ==> Readable(e);
  }

  /** The entry that stands for a tree's: its absolute path; a mode by its kind alone; no owner
      and no time; and what it holds. */
  predicate StandsFor(entry: Entry, e: TreeEntry) {
    && entry.path == [47] + e.path && entry.uid == entry.gid == entry.mtime == N(0)
    && match e.node
       case TreeDir => entry.mode == N(0x1ED) && entry.body == Dir
       case TreeSymlink(target) => entry.mode == N(0x1FF) && entry.body == Symlink(target)
       case TreeFile(bytes, executable) => entry.mode == N(if executable then 0x1ED else 0x1A4) && entry.body == File(bytes)
  }

  /** What is read back of a readable tree, in the order of its paths' bytes. */
  lemma TreeReadBack(es: seq<TreeEntry>) returns (sorted: seq<TreeEntry>)
    requires forall i :: 0 <= i < |es| ==> Collected(es[i]) && Readable(es[i])
    requires CanonicalArchive(es).Some? && DistinctKeys(es, PathKey)
    ensures |sorted| == |es| && forall e :: e in sorted <==> e in es
    ensures forall i, j :: 0 <= i < j < |sorted| ==> Follows(sorted[j].path, sorted[i].path)
    ensures var back := Decode(CanonicalArchive(es).value, map[]);
            && back.Ok? && |back.value| == |sorted|
            && forall i :: 0 <= i < |sorted| ==> StandsFor(back.value[i], sorted[i])
  {
    sorted := Sort(es, PathKey);
    CanonicalRoundTrip(es);
    SortAscending(es, PathKey);
    LayersStand(sorted);
    hide Collected, Readable, CanonicalArchive, Decode, Sort, DistinctKeys, StandsFor, Layers, Follows;
    forall i, j | 0 <= i < j < |sorted|
      ensures Follows(sorted[j].path, sorted[i].path)
    {
      LexByPosition(PathKey(sorted[i]), PathKey(sorted[j]));
    }
  }

  lemma {:induction false} LayersStand(es: seq<TreeEntry>)
    ensures forall i :: 0 <= i < |es| ==> StandsFor(Layers(es)[i], es[i])
  {
    if es != [] {
      LayersStand(es[1..]);
      assert StandsFor(LayerEntry(es[0]), es[0]);
      forall i | 0 < i < |es|
        ensures Layers(es)[i] == Layers(es[1..])[i - 1] && es[i] == es[1..][i - 1]
      {
      }
    }
  }

  /** A tree can be archived exactly when every path is short or has a slash that fits. */
  lemma {:induction false} ChunksExist(es: seq<TreeEntry>)
    ensures Chunks(es).Some? <==> forall i :: 0 <= i < |es| ==> SplitOf(es[i].path).Some?
  {
    hide SplitOf, ChunkBytes;
    if es != [] {
      ChunksExist(es[1..]);
      assert forall i :: 0 < i < |es| ==> es[i] == es[1..][i - 1];
      assert forall i :: 0 <= i < |es[1..]| ==> es[1..][i] == es[i + 1];
    }
  }

  /** The archive depends on the tree alone, not on the order its directories were read in. */
  lemma Canonical(es: seq<TreeEntry>, others: seq<TreeEntry>)
    requires DistinctKeys(es, PathKey) && DistinctKeys(others, PathKey)
    requires forall e :: e in es <==> e in others
    ensures CanonicalArchive(es) == CanonicalArchive(others)
  {
    SortAscending(es, PathKey);
    SortAscending(others, PathKey);
    AscendingUnique(Sort(es, PathKey), Sort(others, PathKey), PathKey);
  }
}
