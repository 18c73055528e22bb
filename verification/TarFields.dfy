/** Reading back a header's fields and a PAX record, one at a time. */
module TarFields {
  import opened Basics
  import opened Numerals
  import opened TarFormat

  // ---- the printed length of a PAX record ----

  lemma {:induction false} TenPowers(w: nat)
    ensures 9 * Pow(10, w) >= w + 1
  {
    if w > 0 {
      TenPowers(w - 1);
      assert Pow(10, w) == 10 * Pow(10, w - 1);
    }
  }

  lemma WidthIs(n: nat)
    ensures DecimalWidth(n) == |Digits(n, 10)|
  {
    hide Digits;
  }

  lemma WidthMonotone(m: nat, n: nat)
    requires m <= n
    ensures DecimalWidth(m) <= DecimalWidth(n)
  {
    hide Digits, DecimalWidth;
    WidthIs(m);
    WidthIs(n);
    DigitsMonotone(m, n, 10);
  }

  /** Adding a number's width to it, and one more, makes it wider by a digit at most. */
  lemma WidthGrows(n: nat)
    ensures DecimalWidth(n + DecimalWidth(n) + 1) <= DecimalWidth(n) + 1
  {
    hide Digits, DecimalWidth;
    WidthIs(n);
    var w := |Digits(n, 10)|;
    DigitsFit(n, 10, w);
    TenPowers(w);
    assert Pow(10, w + 1) == 10 * Pow(10, w);
    WidthIs(n + w + 1);
    hide Pow;
    DigitsFit(n + w + 1, 10, w + 1);
  }

  /** A record's printed length counts the whole record, its own digits included. */
  lemma RecordLengthCountsItself(body: nat)
    ensures RecordLength(body) == DecimalWidth(RecordLength(body)) + body
  {
    hide DecimalWidth;
    var length := body + DecimalWidth(body);
    WidthGrows(body);
    WidthMonotone(body, length);
    WidthMonotone(length, length + 1);
    WidthMonotone(Max(0, body - 1), body);
  }

  lemma RecordPrintsItsLength(key: Bytes, value: Bytes)
    ensures |PaxRecord(key, value)| == RecordLength(|RecordBody(key, value)|)
    ensures StartsWith(PaxRecord(key, value), DecimalText(|PaxRecord(key, value)|))
  {
    RecordLengthCountsItself(|RecordBody(key, value)|);
    var text := DecimalText(RecordLength(|RecordBody(key, value)|));
    assert PaxRecord(key, value)[..|text|] == text;
  }

  // ---- the checksum ----

  lemma {:induction false} SumBound(bytes: Bytes)
    ensures Sum(bytes) <= 255 * |bytes|
  {
    if bytes != [] {
      SumBound(bytes[..|bytes| - 1]);
    }
  }

  // ---- number fields ----

  lemma AsciiTail(ds: seq<nat>)
    requires ds != [] && forall i :: 0 <= i < |ds| ==> ds[i] < 10
    ensures Ascii(ds) == [(48 + ds[0]) as byte] + Ascii(ds[1..])
  {
  }

  lemma {:induction false} LeadingOctalOf(ds: seq<nat>)
    requires forall i :: 0 <= i < |ds| ==> ds[i] < 8
    ensures LeadingOctal(Ascii(ds)) == ds
  {
    if ds != [] {
      LeadingOctalOf(ds[1..]);
      AsciiTail(ds);
      assert Ascii(ds)[1..] == Ascii(ds[1..]);
      assert ds == [ds[0]] + ds[1..];
    }
  }

  lemma ParseDigits(ds: seq<nat>)
    requires ds != [] && forall i :: 0 <= i < |ds| ==> ds[i] < 8
    ensures TrimStart(TrimEnd(Ascii(ds))) == Ascii(ds) != []
    ensures ParseOctal(Ascii(ds)) == N(Value(ds, 8))
  {
    LeadingOctalOf(ds);
    var text := Ascii(ds);
    assert |text| == |ds| && 48 <= text[0] < 58 && 48 <= text[|text| - 1] < 58;
    hide *;
    TrimsNothing(text) by { PlainEnds(text); }
    ParsesPlain(text, ds);
  }

  lemma ParsesPlain(text: Bytes, ds: seq<nat>)
    requires text != [] && 48 <= text[0] && ds != [] && LeadingOctal(text) == ds
    ensures ParseOctal(text) == N(Value(ds, 8))
  {
    hide LeadingOctal, Value;
  }

  lemma PlainEnds(text: Bytes)
    requires text != [] && 48 <= text[0] && 48 <= text[|text| - 1]
    ensures !Whitespace(text[0]) && !Whitespace(text[|text| - 1])
  {
  }

  lemma TrimsNothing(text: Bytes)
    requires text != [] && !Whitespace(text[0]) && !Whitespace(text[|text| - 1])
    ensures TrimStart(TrimEnd(text)) == text
  {
  }

  /** What a field holding these octal digits, then a NUL if there is room, is read as. */
  lemma DigitField(ds: seq<nat>, block: Bytes, at: nat, width: nat)
    requires at + width <= |block|
    requires 0 < |ds| <= width && forall i :: 0 <= i < |ds| ==> ds[i] < 8
    requires block[at..at + |ds|] == Ascii(ds)
    requires |ds| < width ==> block[at + |ds|] == 0
    ensures NumberAt(block, at, width) == N(Value(ds, 8))
  {
    DigitText(ds, block, at, width);
    ParseDigits(ds);
    hide FieldAt, Ascii, ParseOctal, TrimStart, TrimEnd, Value;
  }

  lemma DigitText(ds: seq<nat>, block: Bytes, at: nat, width: nat)
    requires at + width <= |block|
    requires 0 < |ds| <= width && forall i :: 0 <= i < |ds| ==> ds[i] < 8
    requires block[at..at + |ds|] == Ascii(ds)
    requires |ds| < width ==> block[at + |ds|] == 0
    ensures FieldAt(block, at, width) == Ascii(ds)
  {
    AsciiPlain(ds);
    hide Ascii, IndexOf, StartsWithBom;
    var raw := block[at..at + width];
    assert raw[..|ds|] == Ascii(ds);
    IndexOfIs(raw, 0, |ds|);
  }

  lemma AsciiPlain(ds: seq<nat>)
    requires ds != [] && forall i :: 0 <= i < |ds| ==> ds[i] < 8
    ensures 0 !in Ascii(ds) && !StartsWithBom(Ascii(ds))
  {
    assert Ascii(ds)[0] < 58;
  }

  /** The digits an octal field prints, zeros in front included. */
  lemma OctalDigits(n: nat, width: nat) returns (ds: seq<nat>)
    requires width >= 1
    ensures ds != [] && forall i :: 0 <= i < |ds| ==> ds[i] < 8
    ensures Octal(N(n), width) == Ascii(ds) + [0]
    ensures Value(ds, 8) == n
    ensures |ds| >= width - 1
    ensures |ds| <= width <==> n < Pow(8, width)
  {
    hide *;
    var digits := Digits(n, 8);
    DigitsFit(n, 8, width);
    DigitsValue(n, 8);
    OctalOfDigits(n, width);
    PaddedAscii(digits, width - 1);
    if |digits| < width - 1 {
      var zeros: seq<nat> := seq(width - 1 - |digits|, _ => 0);
      ValuePadded(width - 1 - |digits|, digits, 8);
      ds := zeros + digits;
    } else {
      ds := digits;
    }
  }

  lemma OctalOfDigits(n: nat, width: nat)
    requires width >= 1
    ensures Octal(N(n), width) == PadStart(Ascii(Digits(n, 8)), width - 1) + [0]
  {
  }

  lemma PaddedAscii(digits: seq<nat>, width: nat)
    requires forall i :: 0 <= i < |digits| ==> digits[i] < 8
    ensures PadStart(Ascii(digits), width)
         == if |digits| < width then Ascii(seq(width - |digits|, _ => 0) + digits) else Ascii(digits)
  {
  }

  lemma FieldStart(ds: seq<nat>, text: Bytes, block: Bytes, at: nat, width: nat)
    requires at + width <= |block|
    requires |ds| <= width && forall i :: 0 <= i < |ds| ==> ds[i] < 8
    requires StartsWith(text, Ascii(ds))
    requires |ds| < width ==> StartsWith(text, Ascii(ds) + [0])
    requires block[at..at + width] == Field(text, width)
    ensures block[at..at + |ds|] == Ascii(ds)
    ensures |ds| < width ==> block[at + |ds|] == 0
  {
    var raw := block[at..at + width];
    assert block[at..at + |ds|] == raw[..|ds|];
    assert |ds| < width ==> block[at + |ds|] == raw[|ds|] == text[..|ds| + 1][|ds|];
  }

  /** An octal field gives the number back exactly when it fits. */
  lemma OctalField(n: nat, block: Bytes, at: nat, width: nat)
    requires width >= 1 && at + width <= |block|
    requires block[at..at + width] == Field(Octal(N(n), width), width)
    ensures NumberAt(block, at, width) == N(n) <==> n < Pow(8, width)
  {
    hide Octal, Field, NumberAt;
    var ds := OctalDigits(n, width);
    if |ds| <= width {
      FieldStart(ds, Octal(N(n), width), block, at, width);
      DigitField(ds, block, at, width);
    } else {
      var cut := ds[..width];
      assert Ascii(ds)[..width] == Ascii(cut);
      FieldStart(cut, Octal(N(n), width), block, at, width);
      DigitField(cut, block, at, width);
      ValueBound(cut, 8);
    }
  }

  /** The sum of a block with its checksum field as spaces. */
  function SumOfBlock(block: Bytes): nat
    requires |block| == BLOCK
  {
    Sum(block[..148] + Repeat(SPACE, 8) + block[156..])
  }

  lemma {:induction false} SumThen(a: Bytes, b: Bytes)
    ensures Sum(a + b) == Sum(a) + Sum(b)
    decreases |b|
  {
    if b == [] {
      assert a + b == a;
    } else {
      SumThen(a, b[..|b| - 1]);
      assert (a + b)[..|a + b| - 1] == a + b[..|b| - 1];
    }
  }

  /** A sum is the number of its bytes each time one of them is one, and so on up. */
  lemma SumOne(b: byte)
    ensures Sum([b]) == b && Sum([]) == 0
  {
    assert [b][..0] == [];
  }

  /** The checksum always fits the six digits its field has, is read back as the sum of the
      block with the field as spaces, and ends in a NUL and a space. */
  lemma ChecksumField(name: Bytes, kind: byte, size: nat, e: Entry, linkname: Bytes)
    ensures var block := HeaderBytes(name, kind, size, e, linkname);
            NumberAt(block, 148, 8) == N(SumOfBlock(block)) && block[154] == 0 && block[155] == SPACE
  {
    var start, end := HeaderStart(name, size, e), HeaderEnd(kind, linkname);
    var block := HeaderBytes(name, kind, size, e, linkname);
    var sum := Checksum(start, end);
    var text := Octal(N(sum), 7) + [SPACE];
    assert block[148..156] == Field(text, 8) && block[..148] == start && block[156..] == end by {
      hide Field, HeaderStart, HeaderEnd;
    }
    assert SumOfBlock(block) == sum by { hide *; SumIs(block); }
    hide HeaderBytes, HeaderStart, HeaderEnd, Field, Octal, Checksum, NumberAt;
    ChecksumBound(start, end);
    var ds := OctalDigits(sum, 7);
    SixDigits(sum, ds);
    assert text[..7] == Ascii(ds) + [0] && text[..6] == Ascii(ds);
    FieldStart(ds, text, block, 148, 8);
    DigitField(ds, block, 148, 8);
    LastTwo(text, block);
  }

  lemma SumIs(block: Bytes)
    requires |block| == BLOCK
    ensures SumOfBlock(block) == Checksum(block[..148], block[156..])
  {
  }

  lemma LastTwo(text: Bytes, block: Bytes)
    requires |block| == BLOCK && block[148..156] == Field(text, 8) && |text| == 8
    ensures block[154] == text[6] && block[155] == text[7]
  {
    assert block[148..156] == text;
    assert block[154] == block[148..156][6] && block[155] == block[148..156][7];
  }

  lemma ChecksumBound(start: Bytes, end: Bytes)
    requires |start| == 148 && |end| == 356
    ensures Checksum(start, end) < Pow(8, 6)
  {
    SumBound(start + Repeat(SPACE, 8) + end);
    PowLiterals();
  }

  lemma SixDigits(sum: nat, ds: seq<nat>)
    requires sum < Pow(8, 6)
    requires forall i :: 0 <= i < |ds| ==> ds[i] < 8
    requires Octal(N(sum), 7) == Ascii(ds) + [0]
    ensures |ds| == 6
  {
    DigitsFit(sum, 8, 6);
    assert |Octal(N(sum), 7)| == 7;
  }

  // ---- text fields ----

  /** A field its text fits gives that text up to its first NUL, less a byte order mark. */
  lemma TextField(text: Bytes, block: Bytes, at: nat, width: nat)
    requires at + width <= |block|
    requires block[at..at + width] == Field(text, width)
    requires |text| <= width
    ensures FieldAt(block, at, width) == DecodeText(text[..IndexOf(text, 0)])
  {
    hide DecodeText;
    FirstNul(text, width);
  }

  lemma FirstNul(text: Bytes, width: nat)
    requires |text| <= width
    ensures IndexOf(Field(text, width), 0) == IndexOf(text, 0)
    ensures Field(text, width)[..IndexOf(text, 0)] == text[..IndexOf(text, 0)]
  {
    FieldByte(text, width);
    hide Field, IndexOf;
    var raw := Field(text, width);
    var k := IndexOf(text, 0);
    assert raw[..k] == text[..k];
    IndexOfIs(raw, 0, k);
  }

  lemma FieldByte(text: Bytes, width: nat)
    requires |text| <= width
    ensures forall i :: 0 <= i < width ==> Field(text, width)[i] == if i < |text| then text[i] else 0
  {
  }

  /** The text survives exactly when it holds no NUL and begins with no byte order mark. */
  lemma SurvivesField(text: Bytes)
    ensures DecodeText(text[..IndexOf(text, 0)]) == text <==> 0 !in text && !StartsWithBom(text)
  {
    assert text[..|text|] == text;
    if 0 !in text {
      IndexOfIs(text, 0, |text|);
    }
  }

  lemma FieldWithin(block: Bytes, at: nat, width: nat)
    requires at + width <= |block|
    ensures |FieldAt(block, at, width)| <= width
  {
  }

  // ---- records ----

  lemma {:induction false} LeadingDigitsOf(ds: seq<nat>, rest: Bytes)
    requires forall i :: 0 <= i < |ds| ==> ds[i] < 10
    requires rest == [] || !(48 <= rest[0] < 58)
    ensures LeadingDigits(Ascii(ds) + rest) == |ds|
  {
    if ds == [] {
      assert Ascii(ds) + rest == rest;
    } else {
      LeadingDigitsOf(ds[1..], rest);
      AsciiTail(ds);
      assert (Ascii(ds) + rest)[1..] == Ascii(ds[1..]) + rest;
    }
  }

  /** A record's text before its newline is read as its key and value. */
  lemma RecordMatches(length: nat, key: Bytes, value: Bytes)
    requires key != [] && EQUALS !in key
    ensures MatchRecord(DecimalText(length) + [SPACE] + key + [EQUALS] + value)
         == if OneLine(value) then Some((key, value)) else None
  {
    var ds := Digits(length, 10);
    var rest := key + [EQUALS] + value;
    var line := DecimalText(length) + [SPACE] + key + [EQUALS] + value;
    assert line == Ascii(ds) + ([SPACE] + rest);
    LeadingDigitsOf(ds, [SPACE] + rest);
    assert line[|ds| + 1..] == rest;
    assert rest[..|key|] == key;
    IndexOfIs(rest, EQUALS, |key|);
    assert rest[|key| + 1..] == value;
  }

  lemma OneLineHasNoNewline(text: Bytes)
    requires OneLine(text)
    ensures NEWLINE !in text
  {
    if NEWLINE in text {
      var i :| 0 <= i < |text| && text[i] == NEWLINE;
      assert TerminatorAt(text, i);
    }
  }

  lemma {:induction false} ParseLinesAppend(a: seq<Bytes>, b: seq<Bytes>, pax: Pax)
    ensures ParseLines(a + b, pax) == ParseLines(b, ParseLines(a, pax))
  {
    if a == [] {
      assert a + b == b;
    } else {
      assert (a + b)[1..] == a[1..] + b;
      match MatchRecord(a[0])
      case None => ParseLinesAppend(a[1..], b, pax);
      case Some(r) => ParseLinesAppend(a[1..], b, pax[r.0 := r.1]);
    }
  }

  /** A record whose value is one line adds its key and value, whatever follows it. */
  lemma RecordParses(key: Bytes, value: Bytes, rest: Bytes, pax: Pax)
    requires key != [] && EQUALS !in key && NEWLINE !in key
    requires OneLine(value)
    ensures ParseLines(Split(PaxRecord(key, value) + rest, NEWLINE), pax)
         == ParseLines(Split(rest, NEWLINE), pax[key := value])
  {
    var length := RecordLength(|RecordBody(key, value)|);
    var line := DecimalText(length) + [SPACE] + key + [EQUALS] + value;
    RecordLine(key, value, rest);
    OneLineHasNoNewline(value);
    hide MatchRecord, OneLine, DecimalText, RecordLength, RecordBody, PaxRecord, Split;
    SplitPiece(line, NEWLINE, rest);
    RecordMatches(length, key, value);
    var lines := [line] + Split(rest, NEWLINE);
    assert lines[0] == line && lines[1..] == Split(rest, NEWLINE);
  }

  lemma RecordLine(key: Bytes, value: Bytes, rest: Bytes)
    requires NEWLINE !in key
    ensures var line := DecimalText(RecordLength(|RecordBody(key, value)|)) + [SPACE] + key + [EQUALS] + value;
            && PaxRecord(key, value) + rest == line + [NEWLINE] + rest
            && (NEWLINE !in value ==> NEWLINE !in line)
  {
    NoNewline(RecordLength(|RecordBody(key, value)|));
    hide DecimalText, RecordLength;
  }

  lemma NoNewline(n: nat)
    ensures NEWLINE !in DecimalText(n)
  {
  }
}
