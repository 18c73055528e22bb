/** decodeTar undoes encodeTar (src/python_layer.ts): exactly which entries come back. */
module TarRoundTrip {
  import opened Basics
  import opened Numerals
  import opened TarFormat
  import opened TarFields

  // ---- a block and its data ----

  lemma HeaderLayout(name: Bytes, kind: byte, size: nat, e: Entry, linkname: Bytes)
    ensures var b := HeaderBytes(name, kind, size, e, linkname);
            && b[0..100] == Field(name, 100)
            && b[100..108] == Field(Octal(Mode(e.mode), 8), 8)
            && b[108..116] == Field(Octal(e.uid, 8), 8)
            && b[116..124] == Field(Octal(e.gid, 8), 8)
            && b[124..136] == Field(Octal(N(size), 12), 12)
            && b[136..148] == Field(Octal(Mtime(e.mtime), 12), 12)
            && b[156] == kind
            && b[157..257] == Field(linkname, 100)
            && b[257] == 117
            && b[345..500] == Repeat(0, 155)
  {
    StartLayout(name, size, e);
    EndLayout(kind, linkname);
    var start, end := HeaderStart(name, size, e), HeaderEnd(kind, linkname);
    var b := HeaderBytes(name, kind, size, e, linkname);
    hide *;
    assert b == start + b[148..156] + end by {
      BlockLayout(name, kind, size, e, linkname);
    }
    assert b[..148] == start && b[156..] == end;
    assert forall i, j :: 0 <= i <= j <= 148 ==> b[i..j] == start[i..j];
    assert forall i, j :: 0 <= i <= j <= 356 ==> b[156 + i..156 + j] == end[i..j];
  }

  lemma BlockLayout(name: Bytes, kind: byte, size: nat, e: Entry, linkname: Bytes)
    ensures var start, end := HeaderStart(name, size, e), HeaderEnd(kind, linkname);
            var b := HeaderBytes(name, kind, size, e, linkname);
            b == start + b[148..156] + end
  {
    hide HeaderStart, HeaderEnd, Field;
  }

  lemma StartLayout(name: Bytes, size: nat, e: Entry)
    ensures var b := HeaderStart(name, size, e);
            && b[0..100] == Field(name, 100)
            && b[100..108] == Field(Octal(Mode(e.mode), 8), 8)
            && b[108..116] == Field(Octal(e.uid, 8), 8)
            && b[116..124] == Field(Octal(e.gid, 8), 8)
            && b[124..136] == Field(Octal(N(size), 12), 12)
            && b[136..148] == Field(Octal(Mtime(e.mtime), 12), 12)
  {
    hide Field, Octal;
  }

  lemma EndLayout(kind: byte, linkname: Bytes)
    ensures var b := HeaderEnd(kind, linkname);
            && b[0] == kind
            && b[1..101] == Field(linkname, 100)
            && b[101] == 117
            && b[189..344] == Repeat(0, 155)
  {
    hide Field;
  }

  lemma EmptyPrefix(name: Bytes, kind: byte, size: nat, e: Entry, linkname: Bytes)
    requires 0 < kind < 0x80
    ensures var b := HeaderBytes(name, kind, size, e, linkname);
            !AllZero(b) && FieldAt(b, 345, 155) == [] && FieldAt(b, 156, 1) == [kind]
  {
    HeaderLayout(name, kind, size, e, linkname);
    var b := HeaderBytes(name, kind, size, e, linkname);
    IndexOfIs(b[345..500], 0, 0);
    assert b[156..157] == [kind];
    IndexOfIs(b[156..157], 0, 1);
    assert [kind][..1] == [kind];
  }

  lemma PaddedLength(data: Bytes)
    ensures |Padded(data)| == Blocks(|data|)
  {
  }

  /** Reading on from a whole block: its data is what follows, and the next block is
      where padding ends. */
  lemma DecodeBlock(block: Bytes, data: Bytes, rest: Bytes, pax: Pax)
    requires |block| == BLOCK && !AllZero(block)
    requires NumberAt(block, 124, 12) == N(|data|)
    ensures Decode(block + Padded(data) + rest, pax)
         == if FieldAt(block, 156, 1) == [TYPE_PAX] then Decode(rest, ParsePax(data))
            else Then(BuildEntry(block, pax, data), Decode(rest, map[]))
  {
    var tar := block + Padded(data) + rest;
    var after := Padded(data) + rest;
    assert tar[..BLOCK] == block;
    assert tar[BLOCK..] == after;
    PaddedLength(data);
    assert after[..|data|] == data;
    assert DropUpTo(after, Blocks(|data|)) == rest;
  }

  // ---- an entry and its archive ----

  /** Sizes a size field holds; no byte array is longer. */
  predicate Aligned(e: Entry) {
    |DataOf(e)| < Pow(8, 12) && |Records(e)| < Pow(8, 12)
  }

  function PaxOf(e: Entry): Pax {
    if Records(e) == [] then map[] else ParsePax(Records(e))
  }

  /** What the reader makes of one written entry. */
  function ReadBack(e: Entry): Result<Entry, TarError> {
    BuildEntry(MainHeader(e), PaxOf(e), DataOf(e))
  }

  function ReadAll(es: seq<Entry>): Result<seq<Entry>, TarError> {
    if es == [] then Ok([]) else Then(ReadBack(es[0]), ReadAll(es[1..]))
  }

  lemma DecodeEntry(e: Entry, rest: Bytes)
    requires Aligned(e)
    ensures Decode(EntryBytes(e) + rest, map[]) == Then(ReadBack(e), Decode(rest, map[]))
  {
    var records, data := Records(e), DataOf(e);
    var main := MainHeader(e) + Padded(data);
    hide BuildEntry, Decode, HeaderBytes, Padded, FieldAt, NumberAt, Records, ParsePax, Field, Octal;
    HeaderLayout(NameOf(e), KindOf(e), |data|, e, TargetOf(e));
    EmptyPrefix(NameOf(e), KindOf(e), |data|, e, TargetOf(e));
    OctalField(|data|, MainHeader(e), 124, 12);
    DecodeBlock(MainHeader(e), data, rest, PaxOf(e));
    if records == [] {
      assert EntryBytes(e) + rest == main + rest;
    } else {
      var first := HeaderBytes(PAX_NAME, TYPE_PAX, |records|, e, []);
      HeaderLayout(PAX_NAME, TYPE_PAX, |records|, e, []);
      EmptyPrefix(PAX_NAME, TYPE_PAX, |records|, e, []);
      OctalField(|records|, first, 124, 12);
      DecodeBlock(first, records, main + rest, map[]);
      assert EntryBytes(e) + rest == first + Padded(records) + (main + rest);
    }
  }

  /** An archive that ends inside an entry's data is refused. */
  lemma CutIsRefused(e: Entry, start: Bytes, pax: Pax)
    requires Aligned(e) && |start| < |DataOf(e)|
    ensures Decode(MainHeader(e) + start, pax) == Err(Truncated)
  {
    var size := |DataOf(e)|;
    EmptyPrefix(NameOf(e), KindOf(e), size, e, TargetOf(e));
    HeaderLayout(NameOf(e), KindOf(e), size, e, TargetOf(e));
    hide BuildEntry, HeaderBytes, Padded, FieldAt, NumberAt, Records, ParsePax, Field, Octal, NameOf, TargetOf, DataOf;
    OctalField(size, MainHeader(e), 124, 12);
    var tar := MainHeader(e) + start;
    assert tar[..BLOCK] == MainHeader(e) && tar[BLOCK..] == start;
  }

  /** A name with nothing between its slashes, or with a part of dots. */
  predicate BadName(raw: Bytes) {
    var pieces := Split(raw, SLASH);
    || (forall i :: 0 <= i < |pieces| ==> pieces[i] == [])
    || (exists i :: 0 <= i < |pieces| && (pieces[i] == [46] || pieces[i] == [46, 46]))
  }

  /** An entry is refused exactly when its name is bad, or its type is none of a file's, a
      directory's and a link's. */
  lemma RefusedExactly(block: Bytes, pax: Pax, data: Bytes)
    requires |block| == BLOCK
    ensures var raw, kind := RawName(block, pax), FieldAt(block, 156, 1);
            && (BadName(raw) <==> BuildEntry(block, pax, data) == Err(BadPath(raw)))
            && (BuildEntry(block, pax, data).Err? <==> BadName(raw) || kind !in {[48], [], [53], [50]})
  {
    BadExactly(RawName(block, pax));
    hide RawName, FieldAt, NumberAt, PathParts, Unsplit, BadName, Dots;
  }

  lemma BadExactly(raw: Bytes)
    ensures BadName(raw) <==> PathParts(raw) == [] || exists i :: 0 <= i < |PathParts(raw)| && Dots(PathParts(raw)[i])
  {
    hide Split, Filter;
    var pieces, parts := Split(raw, SLASH), PathParts(raw);
    if parts != [] {
      assert parts[0] in parts;
    }
    if i :| 0 <= i < |pieces| && pieces[i] != [] {
      assert pieces[i] in parts;
    }
    if i :| 0 <= i < |pieces| && Dots(pieces[i]) {
      assert pieces[i] in parts;
      var j :| 0 <= j < |parts| && parts[j] == pieces[i];
    }
    if i :| 0 <= i < |parts| && Dots(parts[i]) {
      assert parts[i] in parts;
      var j :| 0 <= j < |pieces| && pieces[j] == parts[i];
    }
  }

  /** Padding realigns every header: an archive is read entry by entry. */
  lemma {:induction false} DecodeArchive(es: seq<Entry>)
    requires forall i :: 0 <= i < |es| ==> Aligned(es[i])
    ensures Decode(Archive(es), map[]) == ReadAll(es)
  {
    hide EntryBytes, ReadBack, Aligned, NumberAt, FieldAt, BuildEntry;
    if es == [] {
      assert Archive(es) == Repeat(0, 2 * BLOCK);
      assert AllZero(Archive(es)[..BLOCK]);
    } else {
      DecodeArchive(es[1..]);
      DecodeEntry(es[0], Archive(es[1..]));
      assert Archive(es) == EntryBytes(es[0]) + Archive(es[1..]);
    }
  }

  lemma {:induction false} ReadAllExact(es: seq<Entry>)
    ensures ReadAll(es) == Ok(es) <==> forall i :: 0 <= i < |es| ==> ReadBack(es[i]) == Ok(es[i])
  {
    hide ReadBack;
    if es != [] {
      var rest := es[1..];
      ReadAllExact(rest);
      assert es == [es[0]] + rest;
      assert forall i :: 0 <= i < |rest| ==> rest[i] == es[i + 1];
      if ReadAll(es) == Ok(es) {
        assert ReadBack(es[0]).Ok? && ReadAll(rest).Ok?;
        var whole := [ReadBack(es[0]).value] + ReadAll(rest).value;
        assert whole == es;
        assert whole[0] == es[0] && whole[1..] == rest;
        forall i | 0 <= i < |es|
          ensures ReadBack(es[i]) == Ok(es[i])
        {
          if i > 0 {
            assert es[i] == rest[i - 1];
          }
        }
      }
    }
  }

  // ---- names ----

  /** A path the reader accepts as it stands: '/', then parts that are neither empty nor dots. */
  predicate CleanPath(path: Bytes) {
    path != [] && path[0] == SLASH &&
    forall i :: 0 <= i < |Split(path[1..], SLASH)| ==>
      Usable(Split(path[1..], SLASH)[i]) && !Dots(Split(path[1..], SLASH)[i])
  }

  /** Whether a name or link target written by the encoder is read back as it was: one
      too long for its field travels in a PAX record, whose value is one line. */
  predicate Survives(text: Bytes) {
    if |text| > NAME_WIDTH then OneLine(text) else 0 !in text && !StartsWithBom(text)
  }

  lemma CleanName(path: Bytes)
    requires CleanPath(path)
    ensures StripLeading(path, SLASH) == path[1..] && path[1..] != []
  {
    var rest := path[1..];
    var parts := Split(rest, SLASH);
    assert Usable(parts[0]);
    assert parts[0] == rest[..IndexOf(rest, SLASH)] || parts[0] == rest;
  }

  /** A clean path's own parts are what the reader takes from its name. */
  lemma NameParts(e: Entry)
    requires CleanPath(e.path)
    ensures PathParts(NameOf(e)) == Split(e.path[1..], SLASH)
    ensures [SLASH] + Unsplit(PathParts(NameOf(e)), SLASH) == e.path
  {
    var rest := e.path[1..];
    CleanName(e.path);
    OwnParts(e.path);
    TrailingSlash(rest);
    UnsplitSplit(rest, SLASH);
    hide PathParts, Split, Unsplit, StripLeading, CleanPath;
    SlashStarts(e.path);
    assert rest + [] == rest;
  }

  lemma SlashStarts(path: Bytes)
    requires CleanPath(path)
    ensures path != [] && [SLASH] + path[1..] == path
  {
    hide Split;
  }

  /** A slash at the end adds no part. */
  lemma TrailingSlash(name: Bytes)
    ensures PathParts(name + [SLASH]) == PathParts(name)
  {
    SplitAt(name, SLASH, []);
    SplitNone([], SLASH);
    hide Split;
    assert name + [SLASH] + [] == name + [SLASH];
    FilterAppend(Split(name, SLASH), [[]], Usable);
  }

  lemma {:induction false} UnsplitCons(part: Bytes, parts: seq<Bytes>)
    ensures |Unsplit([part] + parts, SLASH)|
         == if parts == [] then |part| else |part| + 1 + |Unsplit(parts, SLASH)|
  {
    assert ([part] + parts)[1..] == parts;
  }

  /** Dropping empty parts never lengthens a name. */
  lemma {:induction false} PartsShorten(parts: seq<Bytes>)
    ensures |Unsplit(Filter(parts, Usable), SLASH)| <= |Unsplit(parts, SLASH)|
  {
    if parts != [] {
      PartsShorten(parts[1..]);
      assert parts == [parts[0]] + parts[1..];
      UnsplitCons(parts[0], parts[1..]);
      UnsplitCons(parts[0], Filter(parts[1..], Usable));
    }
  }

  lemma NameShortens(raw: Bytes)
    ensures |Unsplit(PathParts(raw), SLASH)| <= |raw|
  {
    PartsShorten(Split(raw, SLASH));
    UnsplitSplit(raw, SLASH);
  }

  /** A line terminator never straddles a slash. */
  lemma OneLineJoin(a: Bytes, b: Bytes)
    ensures OneLine(a + [SLASH] + b) <==> OneLine(a) && OneLine(b)
  {
    var s := a + [SLASH] + b;
    forall i | 0 <= i < |a|
      ensures TerminatorAt(a, i) <==> TerminatorAt(s, i)
    {
    }
    forall i | 0 <= i < |b|
      ensures TerminatorAt(b, i) <==> TerminatorAt(s, |a| + 1 + i)
    {
    }
    assert forall i :: |a| < i < |s| ==> s[i] == b[i - |a| - 1] && |a| + 1 + (i - |a| - 1) == i;
    if OneLine(a) && OneLine(b) {
      forall i | 0 <= i < |s|
        ensures !TerminatorAt(s, i)
      {
        if i > |a| {
          assert !TerminatorAt(b, i - |a| - 1);
        }
      }
    }
  }

  lemma {:induction false} OneLineParts(s: Bytes)
    requires OneLine(s)
    ensures forall p :: p in Split(s, SLASH) ==> OneLine(p)
    decreases |s|
  {
    if SLASH in s {
      var head, tail := SplitFirst(s, SLASH);
      OneLineJoin(head, tail);
      OneLineParts(tail);
    } else {
      SplitNone(s, SLASH);
    }
  }

  lemma {:induction false} OneLineUnsplit(parts: seq<Bytes>)
    requires forall p :: p in parts ==> OneLine(p)
    ensures OneLine(Unsplit(parts, SLASH))
  {
    if |parts| > 1 {
      OneLineUnsplit(parts[1..]);
      OneLineJoin(parts[0], Unsplit(parts[1..], SLASH));
    }
  }

  lemma OneLineName(raw: Bytes)
    requires OneLine(raw)
    ensures OneLine(Unsplit(PathParts(raw), SLASH))
  {
    OneLineParts(raw);
    OneLineUnsplit(PathParts(raw));
  }

  // ---- records ----

  lemma {:induction false} ValuesAreLines(lines: seq<Bytes>, pax: Pax)
    requires forall k :: k in pax ==> OneLine(pax[k])
    ensures forall k :: k in ParseLines(lines, pax) ==> OneLine(ParseLines(lines, pax)[k])
  {
    if lines != [] {
      match MatchRecord(lines[0])
      case None => ValuesAreLines(lines[1..], pax);
      case Some(r) => ValuesAreLines(lines[1..], pax[r.0 := r.1]);
    }
  }

  lemma PaxValuesAreLines(e: Entry)
    ensures forall k :: k in PaxOf(e) ==> OneLine(PaxOf(e)[k])
  {
    ValuesAreLines(Split(DecodeText(Records(e)), NEWLINE), map[]);
  }

  lemma RecordStart(key: Bytes, value: Bytes, rest: Bytes)
    ensures DecodeText(PaxRecord(key, value) + rest) == PaxRecord(key, value) + rest
    ensures PaxRecord(key, value) != []
  {
    var text := DecimalText(RecordLength(|RecordBody(key, value)|));
    assert (PaxRecord(key, value) + rest)[0] == text[0] < 58;
  }

  lemma EmptyLine()
    ensures forall m :: ParseLines([[]], m) == m
  {
  }

  /** Records of one-line values are read as exactly those written. */
  lemma PaxExact(e: Entry)
    requires |NameOf(e)| > NAME_WIDTH ==> OneLine(NameOf(e))
    requires |TargetOf(e)| > NAME_WIDTH ==> OneLine(TargetOf(e))
    ensures PATH in PaxOf(e) <==> |NameOf(e)| > NAME_WIDTH
    ensures PATH in PaxOf(e) ==> PaxOf(e)[PATH] == NameOf(e)
    ensures LINKPATH in PaxOf(e) <==> |TargetOf(e)| > NAME_WIDTH
    ensures LINKPATH in PaxOf(e) ==> PaxOf(e)[LINKPATH] == TargetOf(e)
  {
    hide PaxRecord, MatchRecord, DecodeText, OneLine, StripLeading;
    var name, target := NameOf(e), TargetOf(e);
    var second: Bytes := if |target| > NAME_WIDTH then PaxRecord(LINKPATH, target) else [];
    SplitNone<byte>([], NEWLINE);
    EmptyLine();
    assert PATH != LINKPATH by { assert |PATH| != |LINKPATH|; }
    assert Records(e) == (if |name| > NAME_WIDTH then PaxRecord(PATH, name) + second else second);
    if |name| > NAME_WIDTH {
      RecordStart(PATH, name, second);
      RecordParses(PATH, name, second, map[]);
    }
    if |target| > NAME_WIDTH {
      RecordStart(LINKPATH, target, []);
      assert second + [] == second;
      RecordParses(LINKPATH, target, [], if |name| > NAME_WIDTH then map[PATH := name] else map[]);
    }
  }

  // ---- the round trip ----

  predicate Natural(e: Entry) {
    && e.mode.N? && e.mode.n >= 0 && e.uid.N? && e.uid.n >= 0
    && e.gid.N? && e.gid.n >= 0 && e.mtime.N? && e.mtime.n >= 0
  }

  /** Numbers their octal fields hold: permission bits, and as many digits as the field is wide. */
  predicate NumbersFit(e: Entry)
    requires Natural(e)
  {
    e.mode.n < 0x1000 && e.uid.n < Pow(8, 8) && e.gid.n < Pow(8, 8) && e.mtime.n < Pow(8, 12)
  }

  /** The entries that come back: numbers that fit, and a name and target that survive. */
  predicate Recoverable(e: Entry) {
    Natural(e) && NumbersFit(e) && (Survives(NameOf(e)) || Spared(e)) && Survives(TargetOf(e))
  }

  /** A directory whose name takes 101 bytes loses only its trailing slash to a cut name
      field, which the reader drops anyway. */
  predicate OnlySlashCut(e: Entry) {
    e.body.Dir? && |NameOf(e)| == NAME_WIDTH + 1
  }

  /** Such a name may hold line terminators: in its first line, where they keep its record from
      being read, as long as none of its other lines reads as a path's record itself. */
  predicate Spared(e: Entry) {
    && OnlySlashCut(e) && e.path != [] && NoPathLine(NameOf(e))
    && 0 !in e.path[1..] && !StartsWithBom(e.path[1..])
  }

  predicate ReadsAsPath(line: Bytes) {
    MatchRecord(line).Some? && MatchRecord(line).value.0 == PATH
  }

  predicate SomeReadsAsPath(lines: seq<Bytes>) {
    exists i :: 0 <= i < |lines| && ReadsAsPath(lines[i])
  }

  predicate NoPathLine(name: Bytes) {
    var lines := Split(name, NEWLINE);
    !OneLine(lines[0]) && forall i :: 0 < i < |lines| ==> !ReadsAsPath(lines[i])
  }

  lemma {:induction false} ParsedKey(lines: seq<Bytes>, pax: Pax, key: Bytes)
    ensures key in ParseLines(lines, pax) <==>
            key in pax || exists i :: 0 <= i < |lines| && MatchRecord(lines[i]).Some? && MatchRecord(lines[i]).value.0 == key
  {
    hide MatchRecord;
    if lines != [] {
      var rest := lines[1..];
      var m := MatchRecord(lines[0]);
      ParsedKey(rest, if m.Some? then pax[m.value.0 := m.value.1] else pax, key);
      assert forall i :: 0 <= i < |rest| ==> rest[i] == lines[i + 1];
      assert forall i :: 0 < i < |lines| ==> lines[i] == rest[i - 1];
    }
  }

  lemma SplitAfter(prefix: Bytes, text: Bytes)
    requires NEWLINE !in prefix
    ensures Split(prefix + text, NEWLINE) == [prefix + Split(text, NEWLINE)[0]] + Split(text, NEWLINE)[1..]
  {
    hide Split;
    if NEWLINE in text {
      var head, tail := SplitFirst(text, NEWLINE);
      SplitPiece(prefix + head, NEWLINE, tail);
      assert prefix + text == prefix + head + [NEWLINE] + tail;
    } else {
      SplitNone(text, NEWLINE);
      SplitNone(prefix + text, NEWLINE);
    }
  }

  /** The lines a path's record is split into: its name's, the first with the key before it. */
  lemma RecordLines(name: Bytes)
    ensures var lines := Split(name, NEWLINE);
            var prefix := DecimalText(RecordLength(|RecordBody(PATH, name)|)) + [SPACE] + PATH + [EQUALS];
            Split(PaxRecord(PATH, name), NEWLINE) == [prefix + lines[0]] + lines[1..] + [[]]
  {
    hide Split, DecimalText, RecordLength;
    var digits := DecimalText(RecordLength(|RecordBody(PATH, name)|));
    var prefix := digits + [SPACE] + PATH + [EQUALS];
    DigitsHaveNoNewline(RecordLength(|RecordBody(PATH, name)|));
    assert PaxRecord(PATH, name) == prefix + name + [NEWLINE] + [];
    SplitAt(prefix + name, NEWLINE, []);
    SplitNone<byte>([], NEWLINE);
    SplitAfter(prefix, name);
  }

  lemma DigitsHaveNoNewline(n: nat)
    ensures NEWLINE !in DecimalText(n)
  {
  }

  /** The reader finds a path record for a directory name of 101 bytes exactly by its text. */
  lemma PathLine(e: Entry)
    requires OnlySlashCut(e)
    ensures PATH !in PaxOf(e) <==> NoPathLine(NameOf(e))
  {
    hide Split, RecordLength, DecimalText, MatchRecord, OneLine, NameOf, DecodeText, ParseLines;
    var name := NameOf(e);
    NoTarget(e);
    assert Records(e) == PaxRecord(PATH, name) + [] == PaxRecord(PATH, name);
    RecordStart(PATH, name, []);
    ParsedPath(Split(PaxRecord(PATH, name), NEWLINE));
    PathAmong(name);
    hide PaxRecord, Records, NoPathLine, SomeReadsAsPath;
  }

  lemma ParsedPath(lines: seq<Bytes>)
    ensures PATH in ParseLines(lines, map[]) <==> SomeReadsAsPath(lines)
  {
    ParsedKey(lines, map[], PATH);
    hide MatchRecord, ParseLines;
  }

  lemma PathAmong(name: Bytes)
    ensures SomeReadsAsPath(Split(PaxRecord(PATH, name), NEWLINE)) <==> !NoPathLine(name)
  {
    hide Split, RecordLength, DecimalText, MatchRecord, OneLine, PaxRecord;
    RecordLines(name);
    RecordMatches(RecordLength(|RecordBody(PATH, name)|), PATH, Split(name, NEWLINE)[0]);
    EmptyMatches();
    var named := Split(name, NEWLINE);
    var lines := Split(PaxRecord(PATH, name), NEWLINE);
    assert ReadsAsPath(lines[0]) <==> OneLine(named[0]);
    assert forall i :: 0 < i < |named| ==> lines[i] == named[i];
    assert lines[|named|] == [] && |lines| == |named| + 1;
    if i :| 0 <= i < |lines| && ReadsAsPath(lines[i]) {
      assert i == 0 || i == |named| || lines[i] == named[i];
    }
    if !NoPathLine(name) && !OneLine(named[0]) {
      var i :| 0 < i < |named| && ReadsAsPath(named[i]);
      assert ReadsAsPath(lines[i]);
    }
  }

  lemma EmptyMatches()
    ensures MatchRecord([]).None?
  {
  }

  lemma NumbersRead(e: Entry)
    requires Natural(e)
    ensures var b := MainHeader(e);
            NumbersFit(e) <==>
              NumberAt(b, 100, 8) == e.mode && NumberAt(b, 108, 8) == e.uid &&
              NumberAt(b, 116, 8) == e.gid && NumberAt(b, 136, 12) == e.mtime
  {
    hide HeaderBytes, NumberAt, Octal, Field;
    HeaderLayout(NameOf(e), KindOf(e), |DataOf(e)|, e, TargetOf(e));
    PowLiterals();
    OctalField(e.mode.n % 0x1000, MainHeader(e), 100, 8);
    OctalField(e.uid.n, MainHeader(e), 108, 8);
    OctalField(e.gid.n, MainHeader(e), 116, 8);
    OctalField(e.mtime.n, MainHeader(e), 136, 12);
  }

  function PathRead(e: Entry): Bytes {
    [SLASH] + Unsplit(PathParts(RawName(MainHeader(e), PaxOf(e))), SLASH)
  }

  function TargetRead(e: Entry): Bytes {
    if LINKPATH in PaxOf(e) then PaxOf(e)[LINKPATH] else FieldAt(MainHeader(e), 157, 100)
  }

  /** An entry comes back exactly when its numbers, path and target each do. */
  lemma ReadBackParts(e: Entry)
    requires Natural(e) && CleanPath(e.path)
    ensures ReadBack(e) == Ok(e) ==>
              NumbersFit(e) && PathRead(e) == e.path && (e.body.Symlink? ==> TargetRead(e) == e.body.target)
    ensures NumbersFit(e) && PathParts(RawName(MainHeader(e), PaxOf(e))) == Split(e.path[1..], SLASH) &&
            (e.body.Symlink? ==> TargetRead(e) == e.body.target)
            ==> ReadBack(e) == Ok(e)
  {
    hide HeaderBytes, NumberAt, FieldAt, PaxOf, RawName, PathParts, StripLeading, NumbersFit, BuildEntry, Split, Unsplit, Dots, NameOf;
    NumbersRead(e);
    EmptyPrefix(NameOf(e), KindOf(e), |DataOf(e)|, e, TargetOf(e));
    Built(MainHeader(e), PaxOf(e), e);
    SlashStarts(e.path);
    UnsplitSplit(e.path[1..], SLASH);
    OwnDots(e.path);
  }

  lemma OwnDots(path: Bytes)
    requires CleanPath(path)
    ensures Split(path[1..], SLASH) != [] && forall i :: 0 <= i < |Split(path[1..], SLASH)| ==> !Dots(Split(path[1..], SLASH)[i])
  {
    hide Split, Dots;
  }

  /** What the reader builds of a block is an entry of its kind exactly when the path, the
      numbers and the target it reads are the entry's. */
  lemma Built(block: Bytes, pax: Pax, e: Entry)
    requires |block| == BLOCK && FieldAt(block, 156, 1) == [KindOf(e)]
    ensures var parts := PathParts(RawName(block, pax));
            BuildEntry(block, pax, DataOf(e)) == Ok(e) <==>
              && parts != [] && (forall i :: 0 <= i < |parts| ==> !Dots(parts[i]))
              && [SLASH] + Unsplit(parts, SLASH) == e.path
              && NumberAt(block, 100, 8) == e.mode && NumberAt(block, 108, 8) == e.uid
              && NumberAt(block, 116, 8) == e.gid && NumberAt(block, 136, 12) == e.mtime
              && (e.body.Symlink? ==> (if LINKPATH in pax then pax[LINKPATH] else FieldAt(block, 157, 100)) == e.body.target)
  {
    hide NumberAt, FieldAt, RawName, PathParts, Unsplit, Dots;
  }

  /** Where name and target are read from when the header has no prefix. */
  lemma RawNameOf(e: Entry)
    ensures RawName(MainHeader(e), PaxOf(e))
         == if PATH in PaxOf(e) then PaxOf(e)[PATH] else FieldAt(MainHeader(e), 0, 100)
    ensures MainHeader(e)[0..100] == Field(NameOf(e), 100)
    ensures MainHeader(e)[157..257] == Field(TargetOf(e), 100)
    ensures |FieldAt(MainHeader(e), 0, 100)| <= 100 && |FieldAt(MainHeader(e), 157, 100)| <= 100
  {
    hide HeaderBytes, PaxOf, Field, FieldAt, NameOf, TargetOf, Octal;
    HeaderLayout(NameOf(e), KindOf(e), |DataOf(e)|, e, TargetOf(e));
    EmptyPrefix(NameOf(e), KindOf(e), |DataOf(e)|, e, TargetOf(e));
    FieldWithin(MainHeader(e), 0, 100);
    FieldWithin(MainHeader(e), 157, 100);
  }

  lemma ShortFields(e: Entry)
    ensures |NameOf(e)| <= NAME_WIDTH ==>
              FieldAt(MainHeader(e), 0, 100) == DecodeText(NameOf(e)[..IndexOf(NameOf(e), 0)])
    ensures |TargetOf(e)| <= NAME_WIDTH ==>
              FieldAt(MainHeader(e), 157, 100) == DecodeText(TargetOf(e)[..IndexOf(TargetOf(e), 0)])
  {
    RawNameOf(e);
    hide HeaderBytes, NameOf, TargetOf, DecodeText, Field;
    if |NameOf(e)| <= NAME_WIDTH {
      TextField(NameOf(e), MainHeader(e), 0, 100);
    }
    if |TargetOf(e)| <= NAME_WIDTH {
      TextField(TargetOf(e), MainHeader(e), 157, 100);
    }
  }

  /** What a reader finds of a directory's name that is cut at its trailing slash. */
  lemma CutAtSlash(e: Entry)
    requires e.path != [] && CleanPath(e.path) && OnlySlashCut(e) && PATH !in PaxOf(e)
    ensures RawName(MainHeader(e), PaxOf(e)) == DecodeText(e.path[1..][..IndexOf(e.path[1..], 0)])
  {
    hide HeaderBytes, DecodeText, RawName, PaxOf, Field, NameOf, CleanPath, OnlySlashCut, FieldAt, IndexOf;
    DirectoryName(e);
    var own := e.path[1..];
    RawNameOf(e);
    SlashBeyondField(own);
    TextField(own, MainHeader(e), 0, NAME_WIDTH);
  }

  lemma DirectoryName(e: Entry)
    requires CleanPath(e.path) && OnlySlashCut(e)
    ensures e.path != [] && NameOf(e) == e.path[1..] + [SLASH] && |e.path[1..]| == NAME_WIDTH
  {
    CleanName(e.path);
    hide CleanPath, StripLeading;
  }

  lemma SlashBeyondField(own: Bytes)
    requires |own| == NAME_WIDTH
    ensures Field(own + [SLASH], NAME_WIDTH) == Field(own, NAME_WIDTH)
  {
    assert (own + [SLASH])[..NAME_WIDTH] == own;
  }

  lemma OwnParts(path: Bytes)
    requires CleanPath(path)
    ensures PathParts(path[1..]) == Split(path[1..], SLASH)
  {
    FilterAll(Split(path[1..], SLASH), Usable);
  }

  lemma NoTarget(e: Entry)
    requires OnlySlashCut(e)
    ensures !e.body.Symlink? && TargetOf(e) == [] && Survives(TargetOf(e))
  {
  }

  lemma SparedBack(e: Entry)
    requires Natural(e) && CleanPath(e.path) && NumbersFit(e) && Spared(e)
    ensures ReadBack(e) == Ok(e)
  {
    hide HeaderBytes, FieldAt, PaxOf, NameOf, PathParts, ReadBack, RawName, DecodeText, NumbersFit, CleanPath, NoPathLine;
    ReadBackParts(e);
    PathLine(e);
    CutAtSlash(e);
    SurvivesField(e.path[1..]);
    OwnParts(e.path);
    NoTarget(e);
  }

  /** And a directory's name of 101 bytes that holds line terminators is spared exactly then. */
  lemma OnlySparedBack(e: Entry)
    requires Natural(e) && CleanPath(e.path) && OnlySlashCut(e) && !OneLine(NameOf(e))
    requires ReadBack(e) == Ok(e)
    ensures NumbersFit(e) && Spared(e)
  {
    hide HeaderBytes, FieldAt, NameOf, PathParts, ReadBack, RawName, DecodeText, NumbersFit, OneLine, NoPathLine;
    ReadBackParts(e);
    RawNameOf(e);
    var raw := RawName(MainHeader(e), PaxOf(e));
    NameShortens(raw);
    PathLine(e);
    if PATH in PaxOf(e) {
      PaxValuesAreLines(e);
      OneLineName(raw);
      NotOneLinePath(e);
    } else if 0 in e.path[1..] || StartsWithBom(e.path[1..]) {
      CutAtSlash(e);
      LosesMore(e.path[1..], e.path[1..]);
    }
  }

  lemma SurvivesBack(e: Entry)
    requires Natural(e) && CleanPath(e.path) && Recoverable(e)
    ensures ReadBack(e) == Ok(e)
  {
    hide *;
    RecoverableEither(e);
    if Survives(NameOf(e)) {
      WholeBack(e);
    } else {
      SparedBack(e);
    }
  }

  lemma RecoverableEither(e: Entry)
    requires Recoverable(e)
    ensures Natural(e) && NumbersFit(e) && (Survives(NameOf(e)) || Spared(e)) && Survives(TargetOf(e))
  {
  }

  lemma WholeBack(e: Entry)
    requires Natural(e) && CleanPath(e.path) && NumbersFit(e) && Survives(NameOf(e)) && Survives(TargetOf(e))
    ensures ReadBack(e) == Ok(e)
  {
    ReadBackParts(e);
    PaxExact(e);
    RawNameOf(e);
    ShortFields(e);
    SurvivesField(NameOf(e));
    SurvivesField(TargetOf(e));
    NameParts(e);
    hide HeaderBytes, FieldAt, PaxOf, NameOf, PathParts, ReadBack, RawName, DecodeText;
  }

  /** A name that does not survive is read as a shorter path. */
  lemma LongNameLost(e: Entry)
    requires CleanPath(e.path)
    requires |NameOf(e)| > NAME_WIDTH && !OneLine(NameOf(e)) && !OnlySlashCut(e)
    ensures PathRead(e) != e.path
  {
    var raw := RawName(MainHeader(e), PaxOf(e));
    RawNameOf(e);
    CleanName(e.path);
    NameShortens(raw);
    if PATH in PaxOf(e) {
      PaxValuesAreLines(e);
      OneLineName(raw);
      NotOneLinePath(e);
    }
    hide HeaderBytes, FieldAt, PaxOf, PathParts, RawName;
  }

  lemma NotOneLinePath(e: Entry)
    requires CleanPath(e.path) && !OneLine(NameOf(e))
    ensures !OneLine(e.path[1..])
  {
    CleanName(e.path);
    if e.body.Dir? {
      OneLineJoin(e.path[1..], []);
      assert e.path[1..] + [SLASH] + [] == NameOf(e);
    } else {
      assert NameOf(e) == e.path[1..];
    }
  }

  /** A cut name is shorter than the path's own part of it, trailing slash or not. */
  lemma LosesMore(own: Bytes, name: Bytes)
    requires name == own || name == own + [SLASH]
    requires 0 in name || StartsWithBom(name)
    ensures |DecodeText(name[..IndexOf(name, 0)])| < |own|
  {
    var k := IndexOf(name, 0);
    assert k == |name| ==> name[..k] == name;
  }

  lemma ShortNameLost(e: Entry)
    requires CleanPath(e.path)
    requires |NameOf(e)| <= NAME_WIDTH && !Survives(NameOf(e))
    requires PATH !in PaxOf(e)
    ensures PathRead(e) != e.path
  {
    var name := NameOf(e);
    var raw := RawName(MainHeader(e), PaxOf(e));
    RawNameOf(e);
    ShortFields(e);
    CleanName(e.path);
    NameShortens(raw);
    hide HeaderBytes, FieldAt, PaxOf, PathParts, RawName;
    LosesMore(e.path[1..], name);
  }

  lemma CutLost(e: Entry)
    requires Natural(e) && CleanPath(e.path) && !OnlySlashCut(e)
    requires ReadBack(e) == Ok(e)
    ensures NumbersFit(e) && Survives(NameOf(e)) && Survives(TargetOf(e))
  {
    hide HeaderBytes, FieldAt, PaxOf, NameOf, PathParts, ReadBack, RawName, DecodeText, NumbersFit, CleanPath, PathRead, OneLine;
    ReadBackParts(e);
    RawNameOf(e);
    ShortFields(e);
    PaxValuesAreLines(e);
    if |NameOf(e)| > NAME_WIDTH && !OneLine(NameOf(e)) {
      LongNameLost(e);
    }
    assert |TargetOf(e)| > NAME_WIDTH ==> OneLine(TargetOf(e));
    PaxExact(e);
    SurvivesField(TargetOf(e));
    if |NameOf(e)| <= NAME_WIDTH && !Survives(NameOf(e)) {
      ShortNameLost(e);
    }
  }

  lemma LostFails(e: Entry)
    requires Natural(e) && CleanPath(e.path)
    requires ReadBack(e) == Ok(e)
    ensures Recoverable(e)
  {
    hide CleanPath, ReadBack, Spared, NameOf, OneLine, NumbersFit, PaxOf;
    if !OnlySlashCut(e) {
      CutLost(e);
    } else {
      NoTarget(e);
      NumbersMust(e);
      if !OneLine(NameOf(e)) {
        OnlySparedBack(e);
      }
    }
  }

  lemma NumbersMust(e: Entry)
    requires Natural(e) && CleanPath(e.path) && ReadBack(e) == Ok(e)
    ensures NumbersFit(e)
  {
    hide *;
    ReadBackParts(e);
  }

  /** What the writer may be given: clean absolute paths, natural numbers, and arrays
      whose length a size field holds. */
  predicate WellFormed(e: Entry) {
    CleanPath(e.path) && Natural(e) && Aligned(e)
  }

  /** Reading a written archive gives the entries back when each is recoverable. */
  lemma RoundTrip(es: seq<Entry>)
    requires forall i :: 0 <= i < |es| ==> WellFormed(es[i]) && Recoverable(es[i])
    ensures Decode(Archive(es), map[]) == Ok(es)
  {
    forall i | 0 <= i < |es|
      ensures ReadBack(es[i]) == Ok(es[i])
    {
      SurvivesBack(es[i]);
    }
    DecodeArchive(es);
    ReadAllExact(es);
  }

  /** And only then. */
  lemma RoundTripExactly(es: seq<Entry>)
    requires forall i :: 0 <= i < |es| ==> WellFormed(es[i])
    ensures Decode(Archive(es), map[]) == Ok(es) <==> forall i :: 0 <= i < |es| ==> Recoverable(es[i])
  {
    hide Decode, Archive, Aligned, CleanPath, Natural, OnlySlashCut, Recoverable, ReadBack, ReadAll;
    DecodeArchive(es);
    ReadAllExact(es);
    forall i | 0 <= i < |es|
      ensures ReadBack(es[i]) == Ok(es[i]) <==> Recoverable(es[i])
    {
      BackExactly(es[i]);
    }
  }

  lemma BackExactly(e: Entry)
    requires WellFormed(e)
    ensures ReadBack(e) == Ok(e) <==> Recoverable(e)
  {
    hide ReadBack, Recoverable, OnlySlashCut, CleanPath, Aligned;
    if ReadBack(e) == Ok(e) {
      LostFails(e);
    } else if Recoverable(e) {
      SurvivesBack(e);
    }
  }
}
