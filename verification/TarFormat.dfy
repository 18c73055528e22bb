/** The tar layer's byte format (src/python_layer.ts): what a header block, a PAX
    record and a whole archive are as bytes, and how the reader takes them apart.
    A text is its UTF-8 bytes throughout. */
module TarFormat {
  import opened Basics
  import opened Numerals

  const BLOCK: nat := 512
  const NAME_WIDTH: nat := 100
  const SLASH: byte := 47
  const SPACE: byte := 32
  const NEWLINE: byte := 10
  const EQUALS: byte := 61
  const PATH: Bytes := [112, 97, 116, 104]
  const LINKPATH: Bytes := [108, 105, 110, 107, 112, 97, 116, 104]
  const PAX_NAME: Bytes := [80, 97, 120, 72, 101, 97, 100, 101, 114]
  const USTAR: Bytes := [117, 115, 116, 97, 114, 0, 48, 48]
  const TYPE_FILE: byte := 48
  const TYPE_SYMLINK: byte := 50
  const TYPE_DIR: byte := 53
  const TYPE_PAX: byte := 120

  /** A JavaScript number that is an integer, or NaN. */
  datatype Num = NaN | N(n: int)

  datatype Body = File(bytes: Bytes) | Dir | Symlink(target: Bytes)

  datatype Entry = Entry(path: Bytes, mode: Num, uid: Num, gid: Num, mtime: Num, body: Body)

  datatype TarError = Truncated | BadPath(raw: Bytes) | Unsupported(kind: Bytes)

  // ---- writing ----

  function Ascii(digits: seq<nat>): (text: Bytes)
    requires forall i :: 0 <= i < |digits| ==> digits[i] < 10
    ensures |text| == |digits|
  {
    seq(|digits|, i requires 0 <= i < |digits| => (48 + digits[i]) as byte)
  }

  /** `value.toString(8)`. */
  function OctalText(value: Num): Bytes {
    match value
    case NaN => [78, 97, 78]
    case N(n) => if n < 0 then [45] + Ascii(Digits(-n, 8)) else Ascii(Digits(n, 8))
  }

  /** `value.toString(10)`. */
  function DecimalText(value: nat): Bytes {
    Ascii(Digits(value, 10))
  }

  function PadStart(text: Bytes, width: nat): Bytes {
    if |text| < width then Repeat(48, width - |text|) + text else text
  }

  function Octal(value: Num, width: nat): Bytes
    requires width >= 1
  {
    PadStart(OctalText(value), width - 1) + [0]
  }

  /** What `put` leaves in a zeroed field of `width` bytes. */
  function Field(text: Bytes, width: nat): (f: Bytes)
    ensures |f| == width
  {
    TakeUpTo(text, width) + Repeat(0, width - |TakeUpTo(text, width)|)
  }

  function Mode(value: Num): Num {
    match value
    case NaN => N(0)
    case N(n) => N(n % 0x1000)
  }

  function Mtime(value: Num): Num {
    match value
    case NaN => NaN
    case N(n) => N(Max(0, n))
  }

  function Sum(bytes: Bytes): nat {
    if bytes == [] then 0 else Sum(bytes[..|bytes| - 1]) + bytes[|bytes| - 1]
  }

  /** The block's 148 bytes before the checksum. */
  function HeaderStart(name: Bytes, size: nat, e: Entry): (b: Bytes)
    ensures |b| == 148
  {
    Field(name, 100) + Field(Octal(Mode(e.mode), 8), 8) + Field(Octal(e.uid, 8), 8) +
    Field(Octal(e.gid, 8), 8) + Field(Octal(N(size), 12), 12) + Field(Octal(Mtime(e.mtime), 12), 12)
  }

  /** The block's 356 bytes after the checksum. */
  function HeaderEnd(kind: byte, linkname: Bytes): (b: Bytes)
    ensures |b| == 356
  {
    [kind] + Field(linkname, 100) + USTAR + Repeat(0, 247)
  }

  /** The checksum of a block counts its own field as spaces. */
  function Checksum(start: Bytes, end: Bytes): nat {
    Sum(start + Repeat(SPACE, 8) + end)
  }

  function HeaderBytes(name: Bytes, kind: byte, size: nat, e: Entry, linkname: Bytes): (b: Bytes)
    ensures |b| == BLOCK
  {
    var start, end := HeaderStart(name, size, e), HeaderEnd(kind, linkname);
    start + Field(Octal(N(Checksum(start, end)), 7) + [SPACE], 8) + end
  }

  function DecimalWidth(value: nat): nat {
    |DecimalText(value)|
  }

  /** The length a PAX record prints, counted the way the code counts it. */
  function RecordLength(body: nat): nat {
    var length := body + DecimalWidth(body);
    if DecimalWidth(length) != DecimalWidth(Max(0, length - DecimalWidth(length))) then length + 1 else length
  }

  function RecordBody(key: Bytes, value: Bytes): Bytes {
    [SPACE] + key + [EQUALS] + value + [NEWLINE]
  }

  function PaxRecord(key: Bytes, value: Bytes): Bytes {
    var body := RecordBody(key, value);
    DecimalText(RecordLength(|body|)) + body
  }

  function PadLength(size: nat): (n: nat)
    ensures n < BLOCK && (size + n) % BLOCK == 0
  {
    if size % BLOCK == 0 then 0 else BLOCK - size % BLOCK
  }

  function Padded(bytes: Bytes): (p: Bytes)
    ensures |p| % BLOCK == 0
  {
    bytes + Repeat(0, PadLength(|bytes|))
  }

  function StripLeading(text: Bytes, x: byte): Bytes {
    if text != [] && text[0] == x then StripLeading(text[1..], x) else text
  }

  function NameOf(e: Entry): Bytes {
    StripLeading(e.path, SLASH) + if e.body.Dir? then [SLASH] else []
  }

  function TargetOf(e: Entry): Bytes {
    if e.body.Symlink? then e.body.target else []
  }

  function DataOf(e: Entry): Bytes {
    if e.body.File? then e.body.bytes else []
  }

  function KindOf(e: Entry): byte {
    match e.body
    case File(_) => TYPE_FILE
    case Dir => TYPE_DIR
    case Symlink(_) => TYPE_SYMLINK
  }

  function Records(e: Entry): Bytes {
    (if |NameOf(e)| > NAME_WIDTH then PaxRecord(PATH, NameOf(e)) else []) +
    (if |TargetOf(e)| > NAME_WIDTH then PaxRecord(LINKPATH, TargetOf(e)) else [])
  }

  function PaxBlocks(e: Entry): Bytes {
    var records := Records(e);
    if records == [] then []
    else HeaderBytes(PAX_NAME, TYPE_PAX, |records|, e, []) + Padded(records)
  }

  function MainHeader(e: Entry): (b: Bytes)
    ensures |b| == BLOCK
  {
    HeaderBytes(NameOf(e), KindOf(e), |DataOf(e)|, e, TargetOf(e))
  }

  function EntryBytes(e: Entry): Bytes {
    PaxBlocks(e) + (MainHeader(e) + Padded(DataOf(e)))
  }

  function Entries(es: seq<Entry>): Bytes {
    if es == [] then [] else EntryBytes(es[0]) + Entries(es[1..])
  }

  /** The archive `encodeTar` writes for `es`. */
  function Archive(es: seq<Entry>): Bytes {
    Entries(es) + Repeat(0, 2 * BLOCK)
  }

  // ---- reading ----

  /** `TextDecoder.decode` of valid UTF-8: a leading byte order mark is dropped. */
  function DecodeText(raw: Bytes): Bytes {
    if StartsWithBom(raw) then raw[3..] else raw
  }

  predicate StartsWithBom(raw: Bytes) {
    StartsWith(raw, [0xEF, 0xBB, 0xBF])
  }

  function FieldAt(block: Bytes, at: nat, width: nat): Bytes
    requires at + width <= |block|
  {
    var raw := block[at..at + width];
    DecodeText(raw[..IndexOf(raw, 0)])
  }

  predicate Whitespace(b: byte) {
    9 <= b <= 13 || b == SPACE
  }

  function TrimStart(text: Bytes): Bytes {
    if text != [] && Whitespace(text[0]) then TrimStart(text[1..]) else text
  }

  function TrimEnd(text: Bytes): Bytes {
    if text != [] && Whitespace(text[|text| - 1]) then TrimEnd(text[..|text| - 1]) else text
  }

  /** The octal digits `text` begins with. */
  function LeadingOctal(text: Bytes): seq<nat> {
    if text != [] && 48 <= text[0] < 56 then [text[0] - 48] + LeadingOctal(text[1..]) else []
  }

  /** `Number.parseInt(text, 8)` of a trimmed text. */
  function ParseOctal(text: Bytes): Num {
    var signed := text != [] && (text[0] == 45 || text[0] == 43);
    var ds := LeadingOctal(if signed then text[1..] else text);
    if ds == [] then NaN
    else
      var value: int := Value(ds, 8);
      N(if signed && text[0] == 45 then -value else value)
  }

  function NumberAt(block: Bytes, at: nat, width: nat): Num
    requires at + width <= |block|
  {
    var text := TrimStart(TrimEnd(FieldAt(block, at, width)));
    if text == [] then N(0) else ParseOctal(text)
  }

  /** Whether a line terminator of a regular expression's `.` begins at `i`. */
  predicate TerminatorAt(text: Bytes, i: nat)
    requires i < |text|
  {
    text[i] == 10 || text[i] == 13 ||
    (i + 2 < |text| && text[i] == 0xE2 && text[i + 1] == 0x80 && (text[i + 2] == 0xA8 || text[i + 2] == 0xA9))
  }

  predicate OneLine(text: Bytes) {
    forall i :: 0 <= i < |text| ==> !TerminatorAt(text, i)
  }

  function LeadingDigits(text: Bytes): (k: nat)
    ensures k <= |text|
  {
    if text != [] && 48 <= text[0] < 58 then 1 + LeadingDigits(text[1..]) else 0
  }

  /** A line as `<digits> <key>=<value>`, if it is one. */
  function MatchRecord(line: Bytes): Option<(Bytes, Bytes)> {
    var k := LeadingDigits(line);
    if k == 0 || k == |line| || line[k] != SPACE then None
    else
      var rest := line[k + 1..];
      var eq := IndexOf(rest, EQUALS);
      if eq == 0 || eq == |rest| || !OneLine(rest[eq + 1..]) then None
      else Some((rest[..eq], rest[eq + 1..]))
  }

  type Pax = map<Bytes, Bytes>

  function ParseLines(lines: seq<Bytes>, pax: Pax): Pax {
    if lines == [] then pax
    else
      match MatchRecord(lines[0])
      case None => ParseLines(lines[1..], pax)
      case Some(r) => ParseLines(lines[1..], pax[r.0 := r.1])
  }

  function ParsePax(data: Bytes): Pax {
    ParseLines(Split(DecodeText(data), NEWLINE), map[])
  }

  function RawName(block: Bytes, pax: Pax): Bytes
    requires |block| == BLOCK
  {
    if PATH in pax then pax[PATH]
    else
      var prefix := FieldAt(block, 345, 155);
      (if prefix != [] then prefix + [SLASH] else []) + FieldAt(block, 0, 100)
  }

  predicate Usable(part: Bytes) {
    part != []
  }

  function PathParts(raw: Bytes): seq<Bytes> {
    Filter(Split(raw, SLASH), Usable)
  }

  predicate Dots(part: Bytes) {
    part == [46] || part == [46, 46]
  }

  function BuildEntry(block: Bytes, pax: Pax, data: Bytes): Result<Entry, TarError>
    requires |block| == BLOCK
  {
    var kind := FieldAt(block, 156, 1);
    var raw := RawName(block, pax);
    var parts := PathParts(raw);
    if parts == [] || exists i :: 0 <= i < |parts| && Dots(parts[i]) then Err(BadPath(raw))
    else
      var common := (body: Body) => Entry([SLASH] + Unsplit(parts, SLASH), NumberAt(block, 100, 8),
                                          NumberAt(block, 108, 8), NumberAt(block, 116, 8),
                                          NumberAt(block, 136, 12), body);
      if kind == [TYPE_FILE] || kind == [] then Ok(common(File(data)))
      else if kind == [TYPE_DIR] then Ok(common(Dir))
      else if kind == [TYPE_SYMLINK] then
        Ok(common(Symlink(if LINKPATH in pax then pax[LINKPATH] else FieldAt(block, 157, 100))))
      else Err(Unsupported(kind))
  }

  predicate AllZero(block: Bytes) {
    forall i :: 0 <= i < |block| ==> block[i] == 0
  }

  function Blocks(size: nat): nat {
    (size + BLOCK - 1) / BLOCK * BLOCK
  }

  /** The first entry, then the others, or the first error. */
  function Then(first: Result<Entry, TarError>, rest: Result<seq<Entry>, TarError>): Result<seq<Entry>, TarError> {
    match first
    case Err(error) => Err(error)
    case Ok(e) =>
      match rest
      case Err(error) => Err(error)
      case Ok(es) => Ok([e] + es)
  }

  /** What `decodeTar` makes of `tar`, with `pax` read just before it. */
  function Decode(tar: Bytes, pax: Pax): Result<seq<Entry>, TarError>
    decreases |tar|
  {
    if |tar| < BLOCK || AllZero(tar[..BLOCK]) then Ok([])
    else
      var block, rest := tar[..BLOCK], tar[BLOCK..];
      var size := NumberAt(block, 124, 12);
      if size.NaN? || size.n < 0 || size.n > |rest| then Err(Truncated)
      else
        var data, next := rest[..size.n], DropUpTo(rest, Blocks(size.n));
        if FieldAt(block, 156, 1) == [TYPE_PAX] then Decode(next, ParsePax(data))
        else Then(BuildEntry(block, pax, data), Decode(next, map[]))
  }
}
