/** A large file published as fixed-size parts (src/image_parts.ts): the layout of the
    parts, and the stream that reads them back as one body. */
module ImageParts {
  import opened Basics

  const IMAGE_PART_BYTES := 20 * 1024 * 1024

  /** What a file needs: at least one part, and no more than cover it. */
  function CountOf(size: nat, partBytes: nat): (n: nat)
    requires partBytes > 0
    ensures n >= 1
  {
    Max(1, (size + partBytes - 1) / partBytes)
  }

  /** Part `at`'s length in that layout. */
  function PartLength(size: nat, partBytes: nat, at: nat): int {
    Min(partBytes, size - at * partBytes)
  }

  /** `imagePartRange`, for any part size: the bytes from `start` up to `end`. */
  function RangeOf(index: int, size: nat, partBytes: nat): Option<(nat, nat)> {
    var start := index * partBytes;
    if index < 0 || start < 0 || start >= size then None else Some((start, Min(start + partBytes, size)))
  }

  function ImagePartRange(index: int, size: nat): Option<(nat, nat)> {
    RangeOf(index, size, IMAGE_PART_BYTES)
  }

  /** Part `at` of `file`. */
  function Slice(file: Bytes, partBytes: nat, at: nat): Bytes {
    if at * partBytes <= |file| then file[at * partBytes..Min(at * partBytes + partBytes, |file|)] else []
  }

  // ---- the layout ----

  lemma Ceiling(size: nat, partBytes: nat)
    requires partBytes > 0
    ensures var n := CountOf(size, partBytes);
            && size <= n * partBytes
            && (n > 1 ==> (n - 1) * partBytes < size)
  {
    var m := (size + partBytes - 1) / partBytes;
    assert m * partBytes <= size + partBytes - 1 < (m + 1) * partBytes;
    assert (m - 1) * partBytes == m * partBytes - partBytes;
    assert (m + 1) * partBytes == m * partBytes + partBytes;
    if m == 0 {
      assert m * partBytes == 0;
    }
  }

  lemma Monotone(i: nat, j: nat, partBytes: nat)
    requires i <= j
    ensures i * partBytes <= j * partBytes
    ensures i < j ==> i * partBytes + partBytes <= j * partBytes
  {
    if i < j {
      var more: nat := j - i - 1;
      assert more * partBytes >= 0;
      assert (i + 1 + more) * partBytes == i * partBytes + partBytes + more * partBytes;
    }
  }

  /** Every part but the last is whole, and the last holds the rest. */
  lemma Lengths(size: nat, partBytes: nat, at: nat)
    requires partBytes > 0 && at < CountOf(size, partBytes)
    ensures at * partBytes <= size
    ensures PartLength(size, partBytes, at)
         == if at < CountOf(size, partBytes) - 1 then partBytes else size - at * partBytes
  {
    var n := CountOf(size, partBytes);
    Ceiling(size, partBytes);
    hide CountOf;
    Monotone(at, n - 1, partBytes);
    assert n * partBytes == (n - 1) * partBytes + partBytes;
  }

  /** The parts' ranges tile the file: they are the indexes below the count, each begins
      where the one before ends, the first at 0 and the last ending the file. */
  lemma RangesTile(size: nat, partBytes: nat)
    requires size > 0 && partBytes > 0
    ensures forall i: int :: RangeOf(i, size, partBytes).Some? <==> 0 <= i < CountOf(size, partBytes)
    ensures RangeOf(0, size, partBytes).value.0 == 0
    ensures RangeOf(CountOf(size, partBytes) - 1, size, partBytes).value.1 == size
    ensures forall i: nat :: 0 < i < CountOf(size, partBytes) ==>
              RangeOf(i - 1, size, partBytes).value.1 == RangeOf(i, size, partBytes).value.0
  {
    var n := CountOf(size, partBytes);
    forall i: int ensures RangeOf(i, size, partBytes).Some? <==> 0 <= i < n {
      RangeExists(size, partBytes, i);
    }
    Ceiling(size, partBytes);
    hide CountOf;
    assert n * partBytes == (n - 1) * partBytes + partBytes;
    forall i: nat | 0 < i < n
      ensures RangeOf(i - 1, size, partBytes).value.1 == RangeOf(i, size, partBytes).value.0
    {
      assert (i - 1) * partBytes + partBytes == i * partBytes;
    }
  }

  lemma RangeExists(size: nat, partBytes: nat, i: int)
    requires size > 0 && partBytes > 0
    ensures RangeOf(i, size, partBytes).Some? <==> 0 <= i < CountOf(size, partBytes)
  {
    var n := CountOf(size, partBytes);
    Ceiling(size, partBytes);
    hide CountOf;
    if 0 <= i < n {
      Monotone(i, n - 1, partBytes);
    } else if i >= n {
      Monotone(n, i, partBytes);
    }
  }

  /** The slice of a file at a part's range is that part. */
  lemma RangeIsSlice(file: Bytes, partBytes: nat, at: nat)
    requires partBytes > 0 && RangeOf(at, |file|, partBytes).Some?
    ensures var range := RangeOf(at, |file|, partBytes).value;
            && range.0 <= range.1 <= |file|
            && Slice(file, partBytes, at) == file[range.0..range.1]
  {
  }

  lemma {:induction false} PrefixLength(parts: seq<Bytes>, size: nat, partBytes: nat, k: nat)
    requires partBytes > 0 && |parts| == CountOf(size, partBytes) && k <= |parts|
    requires forall i :: 0 <= i < |parts| ==> |parts[i]| == PartLength(size, partBytes, i)
    ensures |Join(parts[..k])| == if k < |parts| then k * partBytes else size
  {
    hide CountOf, PartLength;
    if k == 0 {
      assert parts[..0] == [];
    } else {
      hide Join;
      PrefixLength(parts, size, partBytes, k - 1);
      Lengths(size, partBytes, k - 1);
      JoinNext(parts, k - 1);
      assert (k - 1) * partBytes + partBytes == k * partBytes;
    }
  }

  /** Parts of the layout's lengths that join to a file are that file's slices. */
  lemma JoinedParts(parts: seq<Bytes>, partBytes: nat, at: nat)
    requires partBytes > 0 && |parts| == CountOf(|Join(parts)|, partBytes) && at < |parts|
    requires forall i :: 0 <= i < |parts| ==> |parts[i]| == PartLength(|Join(parts)|, partBytes, i)
    ensures parts[at] == Slice(Join(parts), partBytes, at)
  {
    hide Join, CountOf, Slice;
    var file := Join(parts);
    PrefixLength(parts, |file|, partBytes, at);
    Lengths(|file|, partBytes, at);
    JoinCut(parts, at);
    SliceInside(Join(parts[..at]), parts[at], Join(parts[at + 1..]), partBytes, at);
  }

  lemma JoinCut(parts: seq<Bytes>, at: nat)
    requires at < |parts|
    ensures Join(parts) == Join(parts[..at]) + parts[at] + Join(parts[at + 1..])
  {
    hide Join;
    JoinNext(parts, at);
    assert parts == parts[..at + 1] + parts[at + 1..];
    JoinAppend(parts[..at + 1], parts[at + 1..]);
  }

  lemma SliceInside(before: Bytes, part: Bytes, after: Bytes, partBytes: nat, at: nat)
    requires |before| == at * partBytes
    requires |part| == Min(partBytes, |before + part + after| - at * partBytes)
    ensures Slice(before + part + after, partBytes, at) == part
  {
  }

  /** A file's slices, joined, are the file. */
  lemma SlicesJoin(file: Bytes, partBytes: nat, parts: seq<Bytes>)
    requires partBytes > 0 && |parts| == CountOf(|file|, partBytes)
    requires forall i :: 0 <= i < |parts| ==> parts[i] == Slice(file, partBytes, i)
    ensures Join(parts) == file
  {
    Ceiling(|file|, partBytes);
    SlicesPrefix(file, partBytes, parts, |parts|);
    assert parts[..|parts|] == parts;
    assert file[..|file|] == file;
  }

  /** The first slices of a file, joined, are how it begins. */
  lemma {:induction false} SlicesPrefix(file: Bytes, partBytes: nat, parts: seq<Bytes>, k: nat)
    requires partBytes > 0 && |parts| <= CountOf(|file|, partBytes) && k <= |parts|
    requires forall i :: 0 <= i < |parts| ==> parts[i] == Slice(file, partBytes, i)
    ensures k * partBytes >= 0
    ensures Join(parts[..k]) == file[..Min(k * partBytes, |file|)]
  {
    if k > 0 {
      hide Join, CountOf, PartLength, Slice;
      SlicesPrefix(file, partBytes, parts, k - 1);
      Lengths(|file|, partBytes, k - 1);
      JoinNext(parts, k - 1);
      SliceExtends(file, partBytes, k - 1);
    } else {
      assert parts[..0] == [];
    }
  }

  lemma SliceExtends(file: Bytes, partBytes: nat, k: nat)
    requires 0 <= k * partBytes <= |file|
    ensures 0 <= (k + 1) * partBytes
    ensures file[..k * partBytes] + Slice(file, partBytes, k) == file[..Min((k + 1) * partBytes, |file|)]
  {
    assert (k + 1) * partBytes == k * partBytes + partBytes;
  }

  /** Two layouts of one file with as many parts, and a part of the same length in both,
      cut it alike. */
  lemma SameLayout(file: Bytes, partBytes: nat, other: nat, at: nat)
    requires partBytes > 0 && other > 0
    requires CountOf(|file|, partBytes) == CountOf(|file|, other) && at < CountOf(|file|, partBytes)
    requires PartLength(|file|, partBytes, at) == PartLength(|file|, other, at)
    ensures Slice(file, partBytes, at) == Slice(file, other, at)
    ensures partBytes == other || CountOf(|file|, partBytes) == 1
  {
    Lengths(|file|, partBytes, at);
    Lengths(|file|, other, at);
    Ceiling(|file|, partBytes);
    Ceiling(|file|, other);
    hide CountOf, PartLength;
    if at > 0 && at * partBytes == at * other {
      Cancel(at, partBytes, other);
    }
  }

  lemma Cancel(k: nat, a: nat, b: nat)
    requires k > 0 && k * a == k * b
    ensures a == b
  {
    if a < b {
      Monotone(a, b, k);
    } else if b < a {
      Monotone(b, a, k);
    }
  }

  // ---- reading the parts back ----

  /** What asking for a part answers: its body in chunks, or a refusal. */
  datatype Response = Body(chunks: seq<Bytes>) | Refused

  datatype Pulled = Enqueued(chunk: Bytes) | Closed | Failed

  function BodyOf(response: Response): Bytes {
    match response
    case Body(chunks) => Join(chunks)
    case Refused => []
  }

  /** The bodies of the parts, in order. */
  function Bodies(responses: seq<Response>): (parts: seq<Bytes>)
    ensures |parts| == |responses|
  {
    seq(|responses|, i requires 0 <= i < |responses| => BodyOf(responses[i]))
  }

  lemma BodiesNext(responses: seq<Response>, k: nat)
    requires k < |responses|
    ensures Join(Bodies(responses[..k + 1])) == Join(Bodies(responses[..k])) + BodyOf(responses[k])
  {
    assert Bodies(responses[..k + 1]) == Bodies(responses[..k]) + [BodyOf(responses[k])];
    JoinAppend(Bodies(responses[..k]), [BodyOf(responses[k])]);
    JoinOne(BodyOf(responses[k]));
  }

  /** The numbers below `n`, in order. */
  function Below(n: nat): (s: seq<nat>)
    ensures |s| == n && forall i :: 0 <= i < n ==> s[i] == i
  {
    seq(n, i => i)
  }

  lemma BelowNext(n: nat)
    ensures Below(n + 1) == Below(n) + [n]
  {
  }

  /** The stream `partsFetch` answers with. `check`, when there is one, holds for the parts
      the caller accepts. */
  class PartsStream {
    const responses: seq<Response>
    const check: Option<(nat, Bytes) -> bool>

    var index: nat
    var next: Option<nat>
    var reader: Option<seq<Bytes>>
    /** Every request sent, in order. */
    var requests: seq<nat>
    /** What the stream's reader was handed. */
    var delivered: Bytes

    /** Part `at` is there and accepted. */
    ghost predicate Accepted(at: nat)
      requires at < |responses|
    {
      responses[at].Body? && (check.Some? ==> check.value(at, BodyOf(responses[at])))
    }

    /** The parts wholly handed on. */
    ghost function Finished(): nat
      reads this
    {
      if reader.Some? && index > 0 then index - 1 else index
    }

    function Rest(): Bytes
      reads this
    {
      if reader.Some? then Join(reader.value) else []
    }

    /** The parts before `index` are accepted and handed on, but for what the open body
        still holds; each was asked for once, in order, and unchecked, one part ahead. */
    ghost predicate Valid()
      reads this
    {
      && index <= |responses|
      && (reader.Some? ==> index > 0 && check.None?)
      && (next.Some? ==> next.value == index && index < |responses| && check.None?)
      && requests == Below(if next.Some? then index + 1 else index)
      && (check.None? && 0 < index < |responses| ==> next.Some?)
      && (forall at :: 0 <= at < index ==> Accepted(at))
      && delivered + Rest() == Join(Bodies(responses[..index]))
    }

    constructor (responses: seq<Response>, check: Option<(nat, Bytes) -> bool>)
      ensures Valid() && index == 0 && requests == [] && delivered == [] && reader.None?
      ensures this.responses == responses && this.check == check
    {
      this.responses, this.check := responses, check;
      index, next, reader, requests, delivered := 0, None, None, [], [];
    }

    /** At most two parts are on their way at once, and one when they are checked. */
    lemma InFlight()
      requires Valid()
      ensures Finished() <= |requests| <= Finished() + 2
      ensures check.Some? ==> |requests| == Finished()
      ensures forall i, j :: 0 <= i < j < |requests| ==> requests[i] != requests[j]
    {
    }

    /** The next part is asked for, unless it was; unchecked, the one after it too. */
    method Ask() returns (response: Response)
      requires Valid() && reader.None? && index < |responses|
      modifies this`index, this`next, this`requests
      ensures index == old(index) + 1 && response == responses[old(index)]
      ensures next == if check.None? && index < |responses| then Some(index) else None
      ensures requests == Below(if next.Some? then index + 1 else index)
    {
      var at := index;
      index := index + 1;
      if next.None? {
        requests := requests + [at];
      }
      BelowNext(at);
      response := responses[at];
      next := None;
      if check.None? && at + 1 < |responses| {
        BelowNext(at + 1);
        requests, next := requests + [at + 1], Some(at + 1);
      }
    }

    /** What is left to hand on, in chunks: the open body's, and those of the parts ahead. */
    ghost function Left(): nat
      reads this
    {
      (if reader.Some? then |reader.value| else 0) + ChunksFrom(responses, index)
    }

    method Pull() returns (r: Pulled)
      requires Valid()
      modifies this`index, this`next, this`reader, this`requests, this`delivered
      ensures !r.Failed? ==> Valid()
      ensures r.Enqueued? ==> delivered == old(delivered) + r.chunk && Left() < old(Left())
      ensures r.Closed? ==> index == |responses| && reader.None? && delivered == old(delivered)
      ensures r.Failed? ==> delivered == old(delivered) && StoppedAtUnaccepted()
    {
      while true
        invariant Valid() && delivered == old(delivered) && Left() <= old(Left())
        decreases |responses| - index, if reader.Some? then 1 else 0
      {
        hide Join, Bodies, Below, ChunksFrom, BodyOf;
        if reader.Some? {
          var chunk := Read();
          if chunk.Some? {
            return Enqueued(chunk.value);
          }
        }
        if index == |responses| {
          return Closed;
        }
        var r := Open();
        if r.Some? {
          return r.value;
        }
      }
    }

    /** The next chunk of the open body, handed on; nothing at its end. */
    method Read() returns (chunk: Option<Bytes>)
      requires Valid() && reader.Some?
      modifies this`reader, this`delivered
      ensures Valid() && (chunk.None? <==> reader.None?)
      ensures chunk.Some? ==> delivered == old(delivered) + chunk.value && Left() < old(Left())
      ensures chunk.None? ==> delivered == old(delivered) && Left() <= old(Left())
    {
      hide Join, Bodies, Below, ChunksFrom, Accepted;
      JoinFirst(reader.value);
      if reader.value != [] {
        chunk := Some(reader.value[0]);
        Associative(delivered, reader.value[0], Join(reader.value[1..]));
        reader, delivered := Some(reader.value[1..]), delivered + reader.value[0];
      } else {
        reader, chunk := None, None;
        assert delivered + [] == delivered;
      }
    }

    /** The parts before the last one asked about are accepted and handed on; it is not. */
    ghost predicate StoppedAtUnaccepted()
      reads this
    {
      && 0 < index <= |responses| && !Accepted(index - 1)
      && (forall at :: 0 <= at < index - 1 ==> Accepted(at))
      && delivered == Join(Bodies(responses[..index - 1]))
      && index <= |requests| <= index + 1 && requests == Below(|requests|)
    }

    /** The next part's response: handed on at once when it is checked, else to be read. */
    method Open() returns (r: Option<Pulled>)
      requires Valid() && reader.None? && index < |responses|
      modifies this`index, this`next, this`reader, this`requests, this`delivered
      ensures index == old(index) + 1
      ensures r.None? ==> Valid() && delivered == old(delivered) && Left() < old(Left())
      ensures r.Some? ==> r.value.Enqueued? || r.value.Failed?
      ensures r.Some? && r.value.Enqueued? ==>
                Valid() && delivered == old(delivered) + r.value.chunk && Left() < old(Left())
      ensures r.Some? && r.value.Failed? ==> delivered == old(delivered) && StoppedAtUnaccepted()
    {
      hide Join, Bodies, Below, ChunksFrom;
      var at := index;
      assert delivered + [] == delivered;
      BodiesNext(responses, at);
      ChunksNext(responses, at);
      var response := Ask();
      if response.Refused? {
        return Some(Failed);
      }
      if check.None? {
        reader := Some(response.chunks);
        return None;
      }
      var bytes := Join(response.chunks);
      if !check.value(at, bytes) {
        return Some(Failed);
      }
      delivered := delivered + bytes;
      assert delivered + [] == delivered;
      return Some(Enqueued(bytes));
    }

    /** Reading to the end: the whole file when every part is there and accepted, else an
        error after the parts before the first that is not. */
    method ReadAll() returns (body: Bytes, ok: bool)
      requires Valid() && index == 0 && delivered == [] && reader.None?
      modifies this
      ensures ok <==> forall at :: 0 <= at < |responses| ==> Accepted(at)
      ensures ok ==> body == Join(Bodies(responses)) && requests == Below(|responses|)
      ensures !ok ==>
                exists k :: 0 <= k < |responses| && !Accepted(k)
                            && (forall at :: 0 <= at < k ==> Accepted(at))
                            && body == Join(Bodies(responses[..k]))
    {
      while true
        invariant Valid()
        decreases Left()
      {
        var r := Pull();
        match r {
          case Enqueued(_) =>
          case Closed =>
            assert responses[..|responses|] == responses;
            assert delivered + [] == delivered;
            return delivered, true;
          case Failed =>
            return delivered, false;
        }
      }
    }
  }

  /** How many chunks the parts from `k` on come in, counting one for a part itself. */
  ghost function ChunksFrom(responses: seq<Response>, k: nat): nat
    decreases |responses| - k
  {
    if k >= |responses| then 0
    else 1 + (if responses[k].Body? then |responses[k].chunks| else 0) + ChunksFrom(responses, k + 1)
  }

  lemma ChunksNext(responses: seq<Response>, k: nat)
    requires k < |responses|
    ensures ChunksFrom(responses, k)
         == 1 + (if responses[k].Body? then |responses[k].chunks| else 0) + ChunksFrom(responses, k + 1)
  {
  }

  lemma JoinFirst(chunks: seq<Bytes>)
    ensures Join(chunks) == if chunks == [] then [] else chunks[0] + Join(chunks[1..])
  {
  }

  /** Each answer, where there is one, is the file's slice at its part's range. */
  ghost predicate Sliced(file: Bytes, responses: seq<Response>) {
    && |responses| == CountOf(|file|, IMAGE_PART_BYTES)
    && forall at: nat :: at < |responses| && responses[at].Body? ==>
         && ImagePartRange(at, |file|).Some?
         && var range := ImagePartRange(at, |file|).value;
            range.0 <= range.1 <= |file| && BodyOf(responses[at]) == file[range.0..range.1]
  }

  lemma SlicedJoin(file: Bytes, responses: seq<Response>)
    requires |file| > 0 && Sliced(file, responses) && forall at :: 0 <= at < |responses| ==> responses[at].Body?
    ensures Join(Bodies(responses)) == file
  {
    forall at: nat | at < |responses| ensures Bodies(responses)[at] == Slice(file, IMAGE_PART_BYTES, at) {
      RangeIsSlice(file, IMAGE_PART_BYTES, at);
    }
    SlicesJoin(file, IMAGE_PART_BYTES, Bodies(responses));
  }

  /** Slicing a file by the ranges and streaming the slices back gives the file, exactly when
      every part is there. */
  method SlicedAndStreamed(file: Bytes, responses: seq<Response>) returns (body: Bytes, ok: bool)
    requires |file| > 0 && Sliced(file, responses)
    ensures ok <==> forall at :: 0 <= at < |responses| ==> responses[at].Body?
    ensures ok ==> body == file
  {
    var stream := new PartsStream(responses, None);
    body, ok := stream.ReadAll();
    if ok {
      hide Join, Bodies, CountOf, BodyOf;
      forall at | 0 <= at < |responses| ensures responses[at].Body? {
        assert stream.Accepted(at);
      }
      SlicedJoin(file, responses);
    }
  }
}
