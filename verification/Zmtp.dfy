/** ZMTP framing over chunked connections (src/jupyter_transport.ts, and the chunk queue
    of src/native.ts): the framing rules of ZeroMQ RFC 37. */
module Zmtp {
  import opened Basics

  /** Number.MAX_SAFE_INTEGER, which bounds every array's length too. */
  const MAX_SAFE: nat := 0x1F_FFFF_FFFF_FFFF

  type Frame = f: Bytes | |f| <= MAX_SAFE witness []
  type Message = seq<Frame>

  datatype ZmtpError = NoFrame | HeaderTruncated | LengthTruncated | BodyTruncated | Trailing | TooLarge | Closed

  // ---- lengths ----

  /** `n` in `k` bytes, most significant first (`setBigUint64`). */
  function BigEndian(n: nat, k: nat): (b: Bytes)
    ensures |b| == k
  {
    if k == 0 then [] else BigEndian(n / 256, k - 1) + [n % 256]
  }

  function FromBigEndian(b: Bytes): nat {
    if b == [] then 0 else FromBigEndian(b[..|b| - 1]) * 256 + b[|b| - 1]
  }

  /** Whether `k` bytes hold `n`. */
  predicate Holds(n: nat, k: nat) {
    if k == 0 then n == 0 else Holds(n / 256, k - 1)
  }

  lemma {:induction false} BigEndianBack(n: nat, k: nat)
    requires Holds(n, k)
    ensures FromBigEndian(BigEndian(n, k)) == n
  {
    if k > 0 {
      BigEndianBack(n / 256, k - 1);
      assert BigEndian(n, k)[..k - 1] == BigEndian(n / 256, k - 1);
    }
  }

  /** 256 to the `k`. */
  function Room(k: nat): (r: nat)
    ensures r > 0
  {
    if k == 0 then 1 else 256 * Room(k - 1)
  }

  lemma {:induction false} HoldsBelow(n: nat, k: nat)
    requires n < Room(k)
    ensures Holds(n, k)
  {
    if k > 0 {
      HoldsBelow(n / 256, k - 1);
    }
  }

  lemma SafeLengthsHold(n: nat)
    requires n <= MAX_SAFE
    ensures Holds(n, 8)
  {
    assert Room(1) == 0x100 && Room(2) == 0x1_0000 && Room(3) == 0x100_0000 && Room(4) == 0x1_0000_0000;
    assert Room(5) == 0x100_0000_0000 && Room(6) == 0x1_0000_0000_0000 && Room(7) == 0x100_0000_0000_0000;
    HoldsBelow(n, 8);
  }

  // ---- one frame ----

  predicate More(flags: byte) {
    flags % 2 == 1
  }

  predicate Long(flags: byte) {
    flags / 2 % 2 == 1
  }

  function FrameBytes(frame: Frame, more: bool): Bytes {
    if |frame| > 255 then [if more then 3 else 2] + BigEndian(|frame|, 8) + frame
    else [if more then 1 else 0, |frame|] + frame
  }

  /** Where a frame's body begins and how long it says it is, once its header is there. */
  function HeaderLength(s: Bytes): nat
    requires s != []
  {
    if Long(s[0]) then 9 else 2
  }

  function BodyLength(s: Bytes): nat
    requires s != [] && |s| >= HeaderLength(s)
  {
    if Long(s[0]) then FromBigEndian(s[1..9]) else s[1]
  }

  /** The frame's header and body are all there, and its length is a safe one. */
  predicate Whole(s: Bytes) {
    && s != [] && |s| >= HeaderLength(s) && BodyLength(s) <= MAX_SAFE
    && HeaderLength(s) + BodyLength(s) <= |s|
  }

  function BodyOf(s: Bytes): Frame
    requires Whole(s)
  {
    s[HeaderLength(s)..HeaderLength(s) + BodyLength(s)]
  }

  function RestOf(s: Bytes): (rest: Bytes)
    requires Whole(s)
    ensures |rest| < |s|
  {
    s[HeaderLength(s) + BodyLength(s)..]
  }

  /** An encoded frame, whatever follows it, is whole and holds its frame: at every
      length, on both sides of the 255-byte switch. */
  lemma FrameBack(frame: Frame, more: bool, rest: Bytes)
    ensures var s := FrameBytes(frame, more) + rest;
            Whole(s) && More(s[0]) == more && BodyOf(s) == frame && RestOf(s) == rest
  {
    var s := FrameBytes(frame, more) + rest;
    if |frame| > 255 {
      SafeLengthsHold(|frame|);
      BigEndianBack(|frame|, 8);
      assert s[1..9] == BigEndian(|frame|, 8);
      assert s[9..9 + |frame|] == frame;
    } else {
      assert s[2..2 + |frame|] == frame;
    }
  }

  /** Byte `i` of a big-endian number is its digit, in base 256, of that place from the left. */
  lemma {:induction false} BigEndianDigit(n: nat, k: nat, i: nat)
    requires i < k
    ensures |BigEndian(n, k)| == k && BigEndian(n, k)[i] == n / Room(k - 1 - i) % 256
  {
    if i == k - 1 {
      assert Room(0) == 1;
      BigEndianLength(n / 256, k - 1);
    } else {
      BigEndianDigit(n / 256, k - 1, i);
      assert Room(k - 1 - i) == 256 * Room(k - 2 - i);
      DivTwice(n, Room(k - 2 - i));
    }
  }

  lemma {:induction false} BigEndianLength(n: nat, k: nat)
    ensures |BigEndian(n, k)| == k
  {
    if k > 0 {
      BigEndianLength(n / 256, k - 1);
    }
  }

  lemma DivTwice(n: nat, d: nat)
    requires d > 0
    ensures n / 256 / d == n / (256 * d)
  {
    var q := n / 256 / d;
    assert n == 256 * (n / 256) + n % 256 && n / 256 == d * q + n / 256 % d;
    assert 256 * d * q <= n < 256 * d * q + 256 * d;
    QuotientIs(n, 256 * d, q);
  }

  lemma QuotientIs(n: nat, d: nat, q: nat)
    requires d > 0 && d * q <= n < d * q + d
    ensures n / d == q
  {
    if n / d < q {
      TimesMore(d, n / d + 1, q);
    }
    if n / d > q {
      TimesMore(d, q + 1, n / d);
    }
  }

  lemma TimesMore(d: nat, a: nat, b: nat)
    requires a <= b
    ensures d * a <= d * b
  {
    assert d * b == d * a + d * (b - a);
  }

  /** What a frame is on the wire. A short one: 1 when more follow, else 0; its length in one
      byte; and itself. A long one: the same with 2 added; its length in eight bytes, the
      greatest first; and itself. Neither has the command flag. */
  lemma FrameOnWire(frame: Frame, more: bool)
    ensures var s, flag := FrameBytes(frame, more), if more then 1 else 0;
            if |frame| <= 255 then
              |s| == 2 + |frame| && s[0] == flag && s[1] == |frame| && s[2..] == frame
            else
              |s| == 9 + |frame| && s[0] == 2 + flag && s[9..] == frame
              && forall i :: 1 <= i < 9 ==> s[i] == |frame| / Room(8 - i) % 256
  {
    var s := FrameBytes(frame, more);
    if |frame| > 255 {
      BigEndianLength(|frame|, 8);
      forall i | 1 <= i < 9
        ensures s[i] == |frame| / Room(8 - i) % 256
      {
        BigEndianDigit(|frame|, 8, i - 1);
        hide BigEndian, Room;
        assert s[i] == BigEndian(|frame|, 8)[i - 1];
      }
    }
  }

  // ---- messages ----

  /** `encodeZmtpMessage` of a message with a frame. */
  function Encode(frames: Message): Bytes {
    if frames == [] then [] else FrameBytes(frames[0], |frames| > 1) + Encode(frames[1..])
  }

  /** More frames, once `frames` were read. */
  function Before(frames: Message, r: Result<Message, ZmtpError>): Result<Message, ZmtpError> {
    match r
    case Err(e) => Err(e)
    case Ok(more) => Ok(frames + more)
  }

  function Ahead(frames: Message, r: Result<(Message, Bytes), ZmtpError>): Result<(Message, Bytes), ZmtpError> {
    match r
    case Err(e) => Err(e)
    case Ok((more, rest)) => Ok((frames + more, rest))
  }

  lemma BeforeTwice(a: Message, b: Message, r: Result<Message, ZmtpError>)
    ensures Before(a, Before(b, r)) == Before(a + b, r)
    ensures Before([], r) == r
  {
    if r.Ok? {
      assert a + (b + r.value) == a + b + r.value;
      assert [] + r.value == r.value;
    }
  }

  lemma AheadTwice(a: Message, b: Message, r: Result<(Message, Bytes), ZmtpError>)
    ensures Ahead(a, Ahead(b, r)) == Ahead(a + b, r)
    ensures Ahead([], r) == r
  {
    if r.Ok? {
      assert a + (b + r.value.0) == a + b + r.value.0;
      assert [] + r.value.0 == r.value.0;
    }
  }

  /** `decodeZmtpFrames`. */
  function DecodeFrames(s: Bytes): Result<Message, ZmtpError>
    decreases |s|
  {
    if s == [] then Ok([])
    else if |s| < 2 then Err(HeaderTruncated)
    else if |s| < HeaderLength(s) then Err(LengthTruncated)
    else if Long(s[0]) && BodyLength(s) > MAX_SAFE then Err(TooLarge)
    else if HeaderLength(s) + BodyLength(s) > |s| then Err(BodyTruncated)
    else if !More(s[0]) && RestOf(s) != [] then Err(Trailing)
    else Before([BodyOf(s)], DecodeFrames(RestOf(s)))
  }

  /** `receive` on a connection whose bytes to come are `s`: the frames up to the first
      without the more flag, and what is left. */
  function Receive(s: Bytes): Result<(Message, Bytes), ZmtpError>
    decreases |s|
  {
    if s == [] || |s| < HeaderLength(s) then Err(Closed)
    else if Long(s[0]) && BodyLength(s) > MAX_SAFE then Err(TooLarge)
    else if HeaderLength(s) + BodyLength(s) > |s| then Err(Closed)
    else if !More(s[0]) then Ok(([BodyOf(s)], RestOf(s)))
    else Ahead([BodyOf(s)], Receive(RestOf(s)))
  }

  lemma ReceiveWhole(s: Bytes)
    requires Whole(s)
    ensures Receive(s) == if !More(s[0]) then Ok(([BodyOf(s)], RestOf(s))) else Ahead([BodyOf(s)], Receive(RestOf(s)))
  {
  }

  lemma DecodeBroken(s: Bytes)
    requires s != [] && !Whole(s)
    ensures DecodeFrames(s) == Err(if |s| < 2 then HeaderTruncated
                                   else if |s| < HeaderLength(s) then LengthTruncated
                                   else if BodyLength(s) > MAX_SAFE then TooLarge
                                   else BodyTruncated)
  {
  }

  lemma DecodeWhole(s: Bytes)
    requires Whole(s)
    ensures DecodeFrames(s) == if !More(s[0]) && RestOf(s) != [] then Err(Trailing)
                               else Before([BodyOf(s)], DecodeFrames(RestOf(s)))
  {
  }

  /** Receiving gives a message back and leaves what follows it. */
  lemma {:induction false} ReceiveEncoded(frames: Message, rest: Bytes)
    requires frames != []
    ensures Receive(Encode(frames) + rest) == Ok((frames, rest))
    decreases |frames|
  {
    hide *;
    var s, tail := Encode(frames) + rest, Encode(frames[1..]) + rest;
    EncodeCons(frames, rest);
    FrameBack(frames[0], |frames| > 1, tail);
    ReceiveWhole(s);
    if |frames| > 1 {
      ReceiveEncoded(frames[1..], rest);
      assert frames == [frames[0]] + frames[1..];
      AheadOk([frames[0]], frames[1..], rest);
    } else {
      EncodeNothing(frames[1..], rest);
      assert frames == [frames[0]];
    }
  }

  lemma AheadOk(a: Message, b: Message, rest: Bytes)
    ensures Ahead(a, Ok((b, rest))) == Ok((a + b, rest))
  {
  }

  lemma EncodeNothing(frames: Message, rest: Bytes)
    requires frames == []
    ensures Encode(frames) + rest == rest
  {
  }

  lemma EncodeCons(frames: Message, rest: Bytes)
    requires frames != []
    ensures Encode(frames) + rest == FrameBytes(frames[0], |frames| > 1) + (Encode(frames[1..]) + rest)
  {
    hide FrameBytes;
  }

  /** What the two readers agree on: whatever is received, the whole-message decoder takes
      too when nothing follows it, and refuses as trailing when something does. */
  lemma {:induction false} DecodeReceived(s: Bytes)
    requires Receive(s).Ok?
    ensures Receive(s).value.1 == [] ==> DecodeFrames(s) == Ok(Receive(s).value.0)
    ensures Receive(s).value.1 != [] ==> DecodeFrames(s) == Err(Trailing)
    decreases |s|
  {
    if More(s[0]) {
      DecodeReceived(RestOf(s));
    } else {
      assert [BodyOf(s)] + [] == [BodyOf(s)];
    }
  }

  /** Where they differ: the decoder alone also takes a message whose last frame still has
      the more flag, which is the beginning of a longer message and nothing else. */
  lemma {:induction false} DecodedIsReceivedOrUnfinished(s: Bytes, more: Message)
    requires DecodeFrames(s).Ok?
    ensures Receive(s) == Ok((DecodeFrames(s).value, []))
            || (Receive(s) == Err(Closed) &&
                (more != [] ==> Receive(s + Encode(more)) == Ok((DecodeFrames(s).value + more, []))))
    decreases |s|
  {
    if s == [] {
      if more != [] {
        ReceiveEncoded(more, []);
        assert s + Encode(more) == Encode(more) + [];
        assert DecodeFrames(s).value + more == more;
      }
    } else {
      var t := s + Encode(more);
      var rest := RestOf(s);
      SameFrame(s, Encode(more));
      DecodedIsReceivedOrUnfinished(rest, more);
      assert DecodeFrames([]) == Ok([]) && [BodyOf(s)] + [] == [BodyOf(s)];
      hide Receive, DecodeFrames, BodyOf, RestOf, Whole, Encode;
      DecodeWhole(s);
      ReceiveWhole(s);
      ReceiveWhole(t);
      assert [BodyOf(s)] + (DecodeFrames(rest).value + more) == DecodeFrames(s).value + more;
    }
  }

  lemma SameFrame(s: Bytes, next: Bytes)
    requires Whole(s)
    ensures Whole(s + next) && (s + next)[0] == s[0]
    ensures BodyOf(s + next) == BodyOf(s) && RestOf(s + next) == RestOf(s) + next
  {
    var t := s + next;
    assert |s| >= 9 ==> t[1..9] == s[1..9];
    assert HeaderLength(t) == HeaderLength(s) && BodyLength(t) == BodyLength(s);
  }

  /** Every encoded message is decoded to itself. */
  lemma DecodeEncoded(frames: Message)
    requires frames != []
    ensures DecodeFrames(Encode(frames)) == Ok(frames)
  {
    ReceiveEncoded(frames, []);
    assert Encode(frames) + [] == Encode(frames);
    DecodeReceived(Encode(frames));
  }

  // ---- a stream of messages ----

  function EncodeAll(messages: seq<Message>): Bytes {
    if messages == [] then [] else Encode(messages[0]) + EncodeAll(messages[1..])
  }

  /** All messages a connection gives before it fails or closes, and how it ended. */
  function ReceiveAll(s: Bytes): (seq<Message>, ZmtpError)
    decreases |s|
  {
    match Receive(s)
    case Err(e) => ([], e)
    case Ok((frames, rest)) =>
      ReceiveShrinks(s);
      var (messages, end) := ReceiveAll(rest);
      ([frames] + messages, end)
  }

  lemma {:induction false} ReceiveShrinks(s: Bytes)
    requires Receive(s).Ok?
    ensures |Receive(s).value.1| < |s|
    decreases |s|
  {
    if More(s[0]) {
      ReceiveShrinks(RestOf(s));
    }
  }

  lemma {:induction false} ReceiveAllEncoded(messages: seq<Message>)
    requires forall i :: 0 <= i < |messages| ==> messages[i] != []
    ensures ReceiveAll(EncodeAll(messages)) == (messages, Closed)
  {
    if messages == [] {
      NothingComes();
    } else {
      var rest := EncodeAll(messages[1..]);
      assert EncodeAll(messages) == Encode(messages[0]) + rest by { hide Encode; }
      hide *;
      ReceiveEncoded(messages[0], rest);
      ReceiveAllStep(Encode(messages[0]) + rest, messages[0], rest);
      ReceiveAllEncoded(messages[1..]);
      assert messages == [messages[0]] + messages[1..];
    }
  }

  lemma NothingComes()
    ensures EncodeAll([]) == [] && ReceiveAll([]) == ([], Closed)
  {
  }

  lemma ReceiveAllStep(s: Bytes, frames: Message, rest: Bytes)
    requires Receive(s) == Ok((frames, rest))
    ensures ReceiveAll(s) == ([frames] + ReceiveAll(rest).0, ReceiveAll(rest).1)
  {
    hide Receive;
  }

  // ---- the code ----

  method EncodeZmtpMessage(frames: Message) returns (r: Result<Bytes, ZmtpError>)
    ensures r == if frames == [] then Err(NoFrame) else Ok(Encode(frames))
  {
    if frames == [] {
      return Err(NoFrame);
    }
    var encoded: seq<Bytes> := [];
    for index := 0 to |frames|
      invariant Join(encoded) + Encode(frames[index..]) == Encode(frames)
    {
      hide *;
      var bytes := FrameBytes(frames[index], index + 1 < |frames|);
      EncodeNext(frames, index);
      JoinAppend(encoded, [bytes]);
      JoinOne(bytes);
      Associative(Join(encoded), bytes, Encode(frames[index + 1..]));
      encoded := encoded + [bytes];
    }
    assert frames[|frames|..] == [] && Join(encoded) + [] == Join(encoded);
    return Ok(Join(encoded));
  }

  lemma EncodeNext(frames: Message, index: nat)
    requires index < |frames|
    ensures Encode(frames[index..]) == FrameBytes(frames[index], index + 1 < |frames|) + Encode(frames[index + 1..])
  {
    hide FrameBytes;
    var left := frames[index..];
    assert left[0] == frames[index] && left[1..] == frames[index + 1..];
  }

  /** A frame's header at `offset`: its flags, its length and where its body begins. */
  method ReadHeader(bytes: array<byte>, at: nat) returns (r: Result<(byte, nat, nat), ZmtpError>)
    requires at < bytes.Length
    ensures var s := bytes[at..];
            if |s| < 2 then r == Err(HeaderTruncated)
            else if |s| < HeaderLength(s) then r == Err(LengthTruncated)
            else if BodyLength(s) > MAX_SAFE then r == Err(TooLarge)
            else r == Ok((s[0], BodyLength(s), at + HeaderLength(s)))
  {
    ghost var s := bytes[at..];
    var offset := at;
    if offset + 2 > bytes.Length {
      return Err(HeaderTruncated);
    }
    var flags := bytes[offset];
    offset := offset + 1;
    if !Long(flags) {
      return Ok((flags, bytes[offset] as nat, offset + 1));
    }
    if offset + 8 > bytes.Length {
      return Err(LengthTruncated);
    }
    assert bytes[offset..offset + 8] == s[1..9];
    var length := FromBigEndian(bytes[offset..offset + 8]);
    if length > MAX_SAFE {
      return Err(TooLarge);
    }
    return Ok((flags, length, offset + 8));
  }

  /** One frame at `at`: its flags, itself, and where the next one begins. */
  method DecodeFrame(bytes: array<byte>, at: nat) returns (r: Result<(byte, Frame, nat), ZmtpError>)
    requires at < bytes.Length
    ensures var s := bytes[at..];
            match r
            case Err(e) => DecodeFrames(s) == Err(e)
            case Ok((flags, frame, next)) =>
              && Whole(s) && flags == s[0] && frame == BodyOf(s)
              && at < next <= bytes.Length && bytes[next..] == RestOf(s)
  {
    ghost var s := bytes[at..];
    if s != [] && !Whole(s) {
      DecodeBroken(s);
    }
    hide DecodeFrames;
    var header := ReadHeader(bytes, at);
    if header.Err? {
      return Err(header.error);
    }
    var (flags, length, body) := header.value;
    if body + length > bytes.Length {
      return Err(BodyTruncated);
    }
    return Ok((flags, bytes[body..body + length], body + length));
  }

  method DecodeZmtpFrames(bytes: array<byte>) returns (r: Result<Message, ZmtpError>)
    ensures r == DecodeFrames(bytes[..])
  {
    var frames: Message := [];
    var offset := 0;
    assert bytes[0..] == bytes[..];
    BeforeTwice([], [], DecodeFrames(bytes[..]));
    while offset < bytes.Length
      invariant 0 <= offset <= bytes.Length
      invariant DecodeFrames(bytes[..]) == Before(frames, DecodeFrames(bytes[offset..]))
    {
      hide DecodeFrames, BodyOf, RestOf, Whole;
      ghost var s := bytes[offset..];
      var frame := DecodeFrame(bytes, offset);
      if frame.Err? {
        return Err(frame.error);
      }
      DecodeWhole(s);
      BeforeTwice(frames, [frame.value.1], DecodeFrames(RestOf(s)));
      frames := frames + [frame.value.1];
      offset := frame.value.2;
      if !More(frame.value.0) && offset != bytes.Length {
        return Err(Trailing);
      }
    }
    assert bytes[offset..] == [] && frames + [] == frames;
    return Ok(frames);
  }

  /** The desktop connection: socket messages received so far, and those still to come,
      after which the host closes it. */
  class NativePort {
    var chunks: seq<Bytes>
    var closed: bool
    var arriving: seq<Bytes>

    predicate Valid()
      reads this
    {
      && (closed ==> arriving == [])
      && (forall i :: 0 <= i < |chunks| ==> chunks[i] != [])
      && (forall i :: 0 <= i < |arriving| ==> arriving[i] != [])
    }

    /** Every byte still to be read. */
    function Stream(): Bytes
      reads this
    {
      Join(chunks) + Join(arriving)
    }

    constructor (messages: seq<Bytes>)
      requires forall i :: 0 <= i < |messages| ==> messages[i] != []
      ensures Valid() && Stream() == Join(messages)
    {
      chunks, closed, arriving := [], false, messages;
    }

    /** `onmessage` or `onclose`, whichever is next. */
    method Event()
      requires Valid() && !closed
      modifies this
      ensures Valid() && Stream() == old(Stream())
      ensures closed || |arriving| < |old(arriving)|
      ensures closed || chunks != []
    {
      if arriving == [] {
        closed := true;
      } else {
        JoinAppend(chunks, [arriving[0]]);
        JoinOne(arriving[0]);
        chunks, arriving := chunks + [arriving[0]], arriving[1..];
      }
    }

    /** `read`: at most `n` bytes, empty only at the end of the stream. Any number of
        socket events may come before the read resumes. */
    method Read(n: nat) returns (bytes: Bytes)
      requires Valid() && n > 0
      modifies this
      ensures Valid() && bytes + Stream() == old(Stream())
      ensures |bytes| <= n
      ensures bytes == [] <==> old(Stream()) == []
    {
      while *
        invariant Valid() && Stream() == old(Stream())
        decreases |arriving|, !closed
      {
        if closed {
          break;
        }
        Event();
      }
      while chunks == [] && !closed
        invariant Valid() && Stream() == old(Stream())
        decreases |arriving|, !closed
      {
        Event();
      }
      if chunks == [] {
        return [];
      }
      bytes := Take(n);
    }

    /** What there is of the first message, up to `n` bytes. */
    method Take(n: nat) returns (bytes: Bytes)
      requires Valid() && chunks != [] && n > 0
      modifies this`chunks
      ensures Valid() && bytes + Stream() == old(Stream()) && 0 < |bytes| <= n
    {
      var head := chunks[0];
      if |head| <= n {
        chunks := chunks[1..];
        return head;
      }
      ghost var rest := chunks[1..];
      assert head == head[..n] + head[n..];
      chunks := chunks[0 := head[n..]];
      assert chunks[1..] == rest;
      return head[..n];
    }

    method ReadExactly(length: nat) returns (r: Result<Bytes, ZmtpError>)
      requires Valid()
      modifies this
      ensures Valid()
      ensures if length <= |old(Stream())|
              then r == Ok(old(Stream())[..length]) && Stream() == old(Stream())[length..]
              else r == Err(Closed) && Stream() == []
    {
      var result := new byte[length](_ => 0);
      var offset := 0;
      while offset < length
        invariant Valid() && 0 <= offset <= length == result.Length
        invariant result[..offset] + Stream() == old(Stream())
        decreases length - offset
      {
        ghost var before := result[..offset];
        hide Stream;
        var chunk := Read(length - offset);
        Associative(before, chunk, Stream());
        if chunk == [] {
          return Err(Closed);
        }
        forall i | 0 <= i < |chunk| {
          result[offset + i] := chunk[i];
        }
        offset := offset + |chunk|;
        assert result[..offset] == before + chunk;
      }
      assert result[..length] == result[..];
      return Ok(result[..]);
    }

    /** One frame off the connection, and its flags. */
    method ReceiveFrame() returns (r: Result<(byte, Frame), ZmtpError>)
      requires Valid()
      modifies this
      ensures Valid()
      ensures var s := old(Stream());
              if s == [] || |s| < HeaderLength(s) then r == Err(Closed)
              else if BodyLength(s) > MAX_SAFE then r == Err(TooLarge)
              else if !Whole(s) then r == Err(Closed)
              else r == Ok((s[0], BodyOf(s))) && Stream() == RestOf(s)
    {
      hide Stream;
      ghost var s := Stream();
      var head := ReadExactly(1);
      if head.Err? {
        return Err(Closed);
      }
      var flags := head.value[0];
      var size := ReadExactly(if Long(flags) then 8 else 1);
      if size.Err? {
        return Err(Closed);
      }
      var length: nat := if Long(flags) then FromBigEndian(size.value) else size.value[0];
      assert Long(flags) ==> size.value == s[1..9];
      if Long(flags) && length > MAX_SAFE {
        return Err(TooLarge);
      }
      var body := ReadExactly(length);
      if body.Err? {
        return Err(Closed);
      }
      assert s[1..][HeaderLength(s) - 1..] == s[HeaderLength(s)..];
      assert s[HeaderLength(s)..][..length] == s[HeaderLength(s)..HeaderLength(s) + length];
      assert s[HeaderLength(s)..][length..] == s[HeaderLength(s) + length..];
      return Ok((flags, body.value));
    }

    method ReceiveMessage() returns (r: Result<Message, ZmtpError>)
      requires Valid()
      modifies this
      ensures Valid()
      ensures match Receive(old(Stream()))
              case Err(e) => r == Err(e)
              case Ok((frames, rest)) => r == Ok(frames) && Stream() == rest
    {
      var frames: Message := [];
      ghost var all := Stream();
      AheadTwice([], [], Receive(all));
      while true
        invariant Valid()
        invariant Receive(all) == Ahead(frames, Receive(Stream()))
        decreases |Stream()|
      {
        ghost var s := Stream();
        var next := ReceiveFrame();
        if next.Err? {
          return Err(next.error);
        }
        hide Receive, BodyOf, RestOf, Stream, Whole;
        ReceiveWhole(s);
        var (flags, body) := next.value;
        AheadTwice(frames, [body], Receive(RestOf(s)));
        frames := frames + [body];
        if !More(flags) {
          return Ok(frames);
        }
      }
    }

    /** The reader's loop: every message the connection gives, until it ends. */
    method ReadMessages() returns (messages: seq<Message>, end: ZmtpError)
      requires Valid()
      modifies this
      ensures (messages, end) == ReceiveAll(old(Stream()))
    {
      messages := [];
      ghost var all := Stream();
      assert messages + ReceiveAll(all).0 == ReceiveAll(all).0;
      while true
        invariant Valid()
        invariant ReceiveAll(all) == (messages + ReceiveAll(Stream()).0, ReceiveAll(Stream()).1)
        decreases |Stream()|
      {
        hide Receive;
        ghost var s := Stream();
        var r := ReceiveMessage();
        if r.Err? {
          assert messages + [] == messages;
          return messages, r.error;
        }
        ReceiveShrinks(s);
        ReceiveAllStep(s, r.value, Stream());
        hide ReceiveAll, Stream;
        Associative(messages, [r.value], ReceiveAll(Stream()).0);
        messages := messages + [r.value];
      }
    }
  }

  /** However the encoded messages are cut into socket messages, the reader gets them
      back, in order, and then the end. */
  method AnyChunking(messages: seq<Message>, chunks: seq<Bytes>) returns (got: seq<Message>, end: ZmtpError)
    requires forall i :: 0 <= i < |messages| ==> messages[i] != []
    requires forall i :: 0 <= i < |chunks| ==> chunks[i] != []
    requires Join(chunks) == EncodeAll(messages)
    ensures got == messages && end == Closed
  {
    var port := new NativePort(chunks);
    got, end := port.ReadMessages();
    ReceiveAllEncoded(messages);
  }

  // ---- the READY command ----

  const READY: Bytes := [82, 69, 65, 68, 89]
  const SOCKET_TYPE: Bytes := [83, 111, 99, 107, 101, 116, 45, 84, 121, 112, 101]
  const IDENTITY: Bytes := [73, 100, 101, 110, 116, 105, 116, 121]

  /** A property: its name after one byte of length, its value after four. */
  function Property(name: Bytes, value: Bytes): Bytes
    requires |name| < 256
  {
    [|name|] + name + BigEndian(|value|, 4) + value
  }

  function ReadyBody(socketType: Bytes): Bytes {
    [5] + READY + Property(SOCKET_TYPE, socketType) + Property(IDENTITY, [])
  }

  /** `target.set(bytes, offset)`, right after what is `written`. */
  method Append(target: array<byte>, ghost written: Bytes, offset: nat, bytes: Bytes)
    requires offset + |bytes| <= target.Length && target[..offset] == written
    modifies target
    ensures target[..offset + |bytes|] == written + bytes
  {
    forall i | 0 <= i < |bytes| {
      target[offset + i] := bytes[i];
    }
    assert forall i :: 0 <= i < offset ==> target[i] == written[i];
  }

  /** `writeProperty`: returns where the next one goes. */
  method WriteProperty(target: array<byte>, ghost written: Bytes, offset: nat, name: Bytes, value: Bytes)
    returns (next: nat)
    requires |name| < 256 && offset + |Property(name, value)| <= target.Length && target[..offset] == written
    modifies target
    ensures next == offset + |Property(name, value)|
    ensures target[..next] == written + Property(name, value)
  {
    hide BigEndian;
    Append(target, written, offset, [|name|]);
    ghost var w1 := written + [|name|];
    Append(target, w1, offset + 1, name);
    ghost var w2 := w1 + name;
    Append(target, w2, offset + 1 + |name|, BigEndian(|value|, 4));
    ghost var w3 := w2 + BigEndian(|value|, 4);
    Append(target, w3, offset + 5 + |name|, value);
    next := offset + 5 + |name| + |value|;
    assert w3 + value == written + Property(name, value);
  }

  /** `encodeZmtpReady`: the body is filled to its last byte, so its length is the command's. */
  method EncodeZmtpReady(socketType: Bytes) returns (bytes: Bytes)
    requires |socketType| <= 6
    ensures bytes == [4, |ReadyBody(socketType)|] + ReadyBody(socketType)
  {
    var body := new byte[35 + |socketType|](_ => 0);
    Append(body, [], 0, [5]);
    Append(body, [5], 1, READY);
    ghost var head := [5] + READY;
    assert |Property(SOCKET_TYPE, socketType)| == 16 + |socketType| && |Property(IDENTITY, [])| == 13;
    assert ReadyBody(socketType) == head + Property(SOCKET_TYPE, socketType) + Property(IDENTITY, []);
    hide Property, ReadyBody;
    var offset := WriteProperty(body, head, 6, SOCKET_TYPE, socketType);
    offset := WriteProperty(body, head + Property(SOCKET_TYPE, socketType), offset, IDENTITY, []);
    assert offset == body.Length && body[..offset] == body[..];
    return [4, body.Length] + body[..];
  }

  /** `readZmtpCommand`'s view of a READY command: flags 4, its body's length, its name. */
  lemma ReadyIsRead(socketType: Bytes)
    requires |socketType| <= 6
    ensures var body := ReadyBody(socketType);
            && |body| == 35 + |socketType| && body[0] == 5 && body[1..1 + body[0]] == READY
            && body == ([5] + READY) + ([11] + SOCKET_TYPE + [0, 0, 0, |socketType|] + socketType)
                       + ([8] + IDENTITY + [0, 0, 0, 0])
  {
    FourBytes(|socketType|);
    FourBytes(0);
    hide BigEndian;
    assert Property(IDENTITY, []) == [8] + IDENTITY + [0, 0, 0, 0];
    assert Property(SOCKET_TYPE, socketType) == [11] + SOCKET_TYPE + [0, 0, 0, |socketType|] + socketType;
    hide Property;
  }

  lemma FourBytes(n: nat)
    requires n < 256
    ensures BigEndian(n, 4) == [0, 0, 0, n]
  {
    assert BigEndian(n, 0) == [] && BigEndian(0, 0) == [];
    assert BigEndian(0, 1) == [0] && BigEndian(0, 2) == [0, 0] && BigEndian(0, 3) == [0, 0, 0];
    assert n / 256 == 0;
  }
}
