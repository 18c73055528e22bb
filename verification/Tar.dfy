/** The layer's tar writer and reader as src/python_layer.ts runs them: blocks filled in
    place, parts joined at an offset, and a cursor over the archive. */
module Tar {
  import opened Basics
  import opened Numerals
  import opened TarFormat
  import opened TarFields
  import opened TarRoundTrip

  /** `put`: the text, cut to its field, over what the block held there. */
  method Put(block: array<byte>, text: Bytes, at: nat, width: nat)
    requires at + width <= block.Length
    modifies block
    ensures var cut := TakeUpTo(text, width);
            block[..] == old(block[..at]) + cut + old(block[at + |cut|..])
  {
    var cut := TakeUpTo(text, width);
    forall i | 0 <= i < |cut| {
      block[at + i] := cut[i];
    }
    assert forall i :: 0 <= i < block.Length ==>
      block[i] == (old(block[..at]) + cut + old(block[at + |cut|..]))[i];
  }

  /** A put into the zeroed end of a block adds one field to what is `written`. */
  method PutNext(block: array<byte>, ghost written: Bytes, text: Bytes, at: nat, width: nat)
    requires at == |written| && at + width <= block.Length
    requires block[..] == written + Repeat(0, block.Length - at)
    modifies block
    ensures block[..] == written + Field(text, width) + Repeat(0, block.Length - at - width)
  {
    Put(block, text, at, width);
  }

  method SumOf(block: array<byte>) returns (sum: nat)
    ensures sum == Sum(block[..])
  {
    sum := 0;
    for i := 0 to block.Length
      invariant sum == Sum(block[..i])
    {
      assert block[..i + 1][..i] == block[..i];
      sum := sum + block[i];
    }
    assert block[..block.Length] == block[..];
  }

  method Header(name: Bytes, kind: byte, size: nat, e: Entry, linkname: Bytes) returns (block: array<byte>)
    ensures fresh(block)
    ensures block[..] == HeaderBytes(name, kind, size, e, linkname)
  {
    hide Octal, Field, Mode, Mtime, Checksum, HeaderStart, HeaderEnd;
    block := new byte[BLOCK](_ => 0);
    ghost var start := HeaderStart(name, size, e);
    HeaderFirst(block, name, size, e);
    HeaderSecond(block, start, kind, linkname);
    HeaderSum(block, start, HeaderEnd(kind, linkname));
  }

  /** Name to mtime. */
  method HeaderFirst(block: array<byte>, name: Bytes, size: nat, e: Entry)
    requires block.Length == BLOCK && block[..] == Repeat(0, BLOCK)
    modifies block
    ensures block[..] == HeaderStart(name, size, e) + Repeat(0, 364)
  {
    hide Octal, Field, Mode, Mtime;
    PutNext(block, [], name, 0, 100);
    ghost var w1 := Field(name, 100);
    PutNext(block, w1, Octal(Mode(e.mode), 8), 100, 8);
    ghost var w2 := w1 + Field(Octal(Mode(e.mode), 8), 8);
    PutNext(block, w2, Octal(e.uid, 8), 108, 8);
    ghost var w3 := w2 + Field(Octal(e.uid, 8), 8);
    PutNext(block, w3, Octal(e.gid, 8), 116, 8);
    ghost var w4 := w3 + Field(Octal(e.gid, 8), 8);
    PutNext(block, w4, Octal(N(size), 12), 124, 12);
    ghost var w5 := w4 + Field(Octal(N(size), 12), 12);
    PutNext(block, w5, Octal(Mtime(e.mtime), 12), 136, 12);
  }

  /** Spaces for the checksum, then type, link and magic. */
  method HeaderSecond(block: array<byte>, ghost start: Bytes, kind: byte, linkname: Bytes)
    requires |start| == 148 && block.Length == BLOCK && block[..] == start + Repeat(0, 364)
    modifies block
    ensures block[..] == start + Repeat(SPACE, 8) + HeaderEnd(kind, linkname)
  {
    var spaces: Bytes := Repeat(SPACE, 8);
    FieldWhole(spaces);
    FieldWhole([kind]);
    FieldWhole(USTAR);
    hide Field;
    PutNext(block, start, spaces, 148, 8);
    PutNext(block, start + spaces, [kind], 156, 1);
    ghost var w := start + spaces + [kind];
    PutNext(block, w, linkname, 157, 100);
    PutNext(block, w + Field(linkname, 100), USTAR, 257, 8);
    assert w + Field(linkname, 100) + USTAR + Repeat(0, 247) == start + spaces + HeaderEnd(kind, linkname);
  }

  /** The sum of it all, over the spaces. */
  method HeaderSum(block: array<byte>, ghost start: Bytes, ghost end: Bytes)
    requires |start| == 148 && |end| == 356
    requires block[..] == start + Repeat(SPACE, 8) + end
    modifies block
    ensures block[..] == start + Field(Octal(N(Checksum(start, end)), 7) + [SPACE], 8) + end
  {
    var sum := SumOf(block);
    var text := Octal(N(sum), 7) + [SPACE];
    ChecksumText(start, end);
    FieldWhole(text);
    hide Octal, Field, Sum;
    Put(block, text, 148, 8);
  }

  lemma FieldWhole(text: Bytes)
    ensures Field(text, |text|) == text
  {
  }

  lemma ChecksumText(start: Bytes, end: Bytes)
    requires |start| == 148 && |end| == 356
    ensures |Octal(N(Checksum(start, end)), 7) + [SPACE]| == 8
  {
    ChecksumBound(start, end);
    DigitsFit(Checksum(start, end), 8, 6);
  }

  // ---- whole archives ----

  lemma {:induction false} EntriesAppend(es: seq<Entry>, e: Entry)
    ensures Entries(es + [e]) == Entries(es) + EntryBytes(e)
  {
    hide EntryBytes;
    if es == [] {
      assert es + [e] == [e] && [e][1..] == [];
    } else {
      EntriesAppend(es[1..], e);
      assert (es + [e])[1..] == es[1..] + [e];
    }
  }

  /** `padded`: the bytes, and zeros to the next block when they end inside one. */
  method PaddedParts(bytes: Bytes) returns (parts: seq<Bytes>)
    ensures Join(parts) == Padded(bytes)
  {
    var rest := |bytes| % BLOCK;
    JoinOne(bytes);
    if rest == 0 {
      parts := [bytes];
    } else {
      parts := [bytes, Repeat(0, BLOCK - rest)];
      JoinAppend([bytes], [Repeat(0 as byte, BLOCK - rest)]);
      JoinOne(Repeat(0 as byte, BLOCK - rest));
      assert parts == [bytes] + [Repeat(0, BLOCK - rest)];
    }
  }

  method EntryParts(e: Entry) returns (parts: seq<Bytes>)
    ensures Join(parts) == EntryBytes(e)
  {
    hide HeaderBytes, Padded, Records;
    parts := [];
    var pax := Records(e);
    if pax != [] {
      var head := Header(PAX_NAME, TYPE_PAX, |pax|, e, []);
      var padded := PaddedParts(pax);
      parts := [head[..]] + padded;
      JoinAppend([head[..]], padded);
      JoinOne(head[..]);
    }
    assert Join(parts) == PaxBlocks(e);
    var block := Header(NameOf(e), KindOf(e), |DataOf(e)|, e, TargetOf(e));
    JoinAppend(parts, [block[..]]);
    JoinOne(block[..]);
    parts := parts + [block[..]];
    var data := [];
    if e.body.File? {
      data := PaddedParts(e.body.bytes);
    } else {
      NoPadding();
    }
    JoinAppend(parts, data);
    parts := parts + data;
  }

  lemma NoPadding()
    ensures Padded([]) == []
  {
  }

  /** `tarParts`: the archive as its parts, in order. */
  method TarParts(es: seq<Entry>) returns (parts: seq<Bytes>)
    ensures Join(parts) == Archive(es)
  {
    hide EntryBytes;
    parts := [];
    for i := 0 to |es|
      invariant Join(parts) == Entries(es[..i])
    {
      var next := EntryParts(es[i]);
      JoinAppend(parts, next);
      EntriesAppend(es[..i], es[i]);
      assert es[..i] + [es[i]] == es[..i + 1];
      parts := parts + next;
    }
    assert es[..|es|] == es;
    JoinAppend(parts, [Repeat(0 as byte, 2 * BLOCK)]);
    JoinOne(Repeat(0 as byte, 2 * BLOCK));
    parts := parts + [Repeat(0, 2 * BLOCK)];
  }

  method EncodeTar(es: seq<Entry>) returns (out: array<byte>)
    ensures out[..] == Archive(es)
  {
    hide Archive, Join;
    var parts := TarParts(es);
    JoinNone(parts);
    var length := 0;
    for i := 0 to |parts|
      invariant length == |Join(parts[..i])|
    {
      JoinNext(parts, i);
      length := length + |parts[i]|;
    }
    assert parts[..|parts|] == parts;
    out := new byte[length](_ => 0);
    var at := 0;
    for i := 0 to |parts|
      invariant at == |Join(parts[..i])| <= length
      invariant out.Length == length
      invariant out[..at] == Join(parts[..i])
    {
      JoinNext(parts, i);
      JoinPrefix(parts, i + 1);
      Put(out, parts[i], at, |parts[i]|);
      at := at + |parts[i]|;
    }
  }

  lemma JoinNone(parts: seq<Bytes>)
    ensures Join(parts[..0]) == []
  {
  }

  lemma JoinPrefix(parts: seq<Bytes>, i: nat)
    requires i <= |parts|
    ensures |Join(parts[..i])| <= |Join(parts)|
  {
    JoinAppend(parts[..i], parts[i..]);
    assert parts == parts[..i] + parts[i..];
  }

  function After(done: seq<Entry>, rest: Result<seq<Entry>, TarError>): Result<seq<Entry>, TarError> {
    match rest
    case Err(error) => Err(error)
    case Ok(es) => Ok(done + es)
  }

  lemma AfterThen(done: seq<Entry>, e: Entry, rest: Result<seq<Entry>, TarError>)
    ensures After(done, Then(Ok(e), rest)) == After(done + [e], rest)
  {
    if rest.Ok? {
      assert done + ([e] + rest.value) == done + [e] + rest.value;
    }
  }

  lemma AfterNothing(r: Result<seq<Entry>, TarError>)
    ensures After([], r) == r
  {
    assert r.Ok? ==> [] + r.value == r.value;
  }

  lemma DecodeEnds(left: Bytes, pax: Pax)
    requires |left| < BLOCK
    ensures Decode(left, pax) == Ok([])
  {
  }

  /** One turn of the reader's loop over what is `left`. */
  lemma DecodeStep(left: Bytes, pax: Pax, block: Bytes, rest: Bytes, size: Num)
    requires |left| >= BLOCK && block == left[..BLOCK] && rest == left[BLOCK..]
    requires size == NumberAt(block, 124, 12)
    ensures AllZero(block) ==> Decode(left, pax) == Ok([])
    ensures !AllZero(block) && (size.NaN? || size.n < 0 || size.n > |rest|) ==> Decode(left, pax) == Err(Truncated)
    ensures !AllZero(block) && size.N? && 0 <= size.n <= |rest| ==>
              Decode(left, pax)
              == var data, next := rest[..size.n], DropUpTo(rest, Blocks(size.n));
                 if FieldAt(block, 156, 1) == [TYPE_PAX] then Decode(next, ParsePax(data))
                 else Then(BuildEntry(block, pax, data), Decode(next, map[]))
  {
    hide BuildEntry, NumberAt, FieldAt, ParsePax, Then, Blocks;
  }

  method DecodeTar(tar: array<byte>) returns (r: Result<seq<Entry>, TarError>)
    ensures r == Decode(tar[..], map[])
  {
    hide BuildEntry, NumberAt, FieldAt, ParsePax, Decode, Blocks, AllZero;
    var entries: seq<Entry> := [];
    var pax: Pax := map[];
    var at := 0;
    AfterNothing(Decode(tar[..], map[]));
    assert tar[..][0..] == tar[..];
    while at + BLOCK <= tar.Length
      invariant After(entries, Decode(DropUpTo(tar[..], at), pax)) == Decode(tar[..], map[])
      decreases tar.Length - at
    {
      ghost var left := tar[at..];
      var block := tar[at..at + BLOCK];
      assert block == left[..BLOCK];
      at := at + BLOCK;
      var size := NumberAt(block, 124, 12);
      DecodeStep(left, pax, block, left[BLOCK..], size);
      if AllZero(block) {
        assert entries + [] == entries;
        return Ok(entries);
      }
      var kind := FieldAt(block, 156, 1);
      if size.NaN? || size.n < 0 || at + size.n > tar.Length {
        return Err(Truncated);
      }
      var data := tar[at..at + size.n];
      assert left[BLOCK..] == tar[at..];
      assert data == tar[at..][..size.n];
      assert DropUpTo(tar[at..], Blocks(size.n)) == DropUpTo(tar[..], at + Blocks(size.n));
      at := at + Blocks(size.n);
      if kind == [TYPE_PAX] {
        pax := ParsePax(data);
        continue;
      }
      match BuildEntry(block, pax, data) {
        case Err(error) =>
          return Err(error);
        case Ok(e) =>
          AfterThen(entries, e, Decode(DropUpTo(tar[..], at), map[]));
          entries := entries + [e];
      }
      pax := map[];
    }
    assert entries + [] == entries;
    DecodeEnds(DropUpTo(tar[..], at), pax);
    return Ok(entries);
  }

  /** Writing entries and reading the archive gives them back. */
  method EncodeDecode(es: seq<Entry>) returns (r: Result<seq<Entry>, TarError>)
    requires forall i :: 0 <= i < |es| ==> WellFormed(es[i]) && Recoverable(es[i])
    ensures r == Ok(es)
  {
    var tar := EncodeTar(es);
    r := DecodeTar(tar);
    RoundTrip(es);
  }

  lemma LostAlone(e: Entry)
    requires WellFormed(e) && !Recoverable(e)
    ensures Decode(Archive([e]), map[]) != Ok([e])
  {
    hide *;
    assert [e][0] == e;
    RoundTripExactly([e]);
  }

  /** A clean name that begins with a byte order mark is not read back as it was. */
  lemma ByteOrderMarkIsLost(e: Entry)
    requires e == Entry([SLASH, 0xEF, 0xBB, 0xBF, 120], N(420), N(0), N(0), N(0), File([]))
    ensures WellFormed(e) && Decode(Archive([e]), map[]) != Ok([e])
  {
    hide Decode, Archive, Split;
    var rest: Bytes := [0xEF, 0xBB, 0xBF, 120];
    assert e.path[1..] == rest && StartsWithBom(rest);
    SplitNone(rest, SLASH);
    CleanName(e.path);
    PowLiterals();
    LostAlone(e);
  }
}
